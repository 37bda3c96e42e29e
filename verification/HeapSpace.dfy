/**
  An mspace: the allocator's state and its operations on the segment's memory.  `smallmap` to `topsize` are the
  fields of `malloc_state`; its bin headers and slots are words of the state chunk.
 */
module HeapSpace {
  import opened Words
  import opened HeapWords
  import opened HeapBinMaps
  import opened HeapTreeIndex
  import opened HeapRings
  import opened HeapTries
  import opened HeapTrieMem
  import opened HeapBins
  import opened HeapSmallBins
  import opened HeapLargeBins
  import opened HeapLargeUnlink
  import opened HeapArena
  import opened HeapTags
  import opened HeapState
  import opened HeapWalk
  import opened HeapMacros
  import opened HeapRelease
  import opened HeapAlloc
  import opened HeapFit
  import opened HeapSmallFit
  import opened HeapResize
  import opened HeapAlign
  import opened HeapShape
  import opened HeapRuns

  class MSpace {
    const msp: int
    const hi: int
    const footprint: int
    var mem: Mem
    var smallmap: Word
    var treemap: Word
    var dv: Word
    var dvsize: Word
    var top: Word
    var topsize: Word
    ghost var C: Arena
    ghost var last: int
    ghost var bins: Bins

    /** Link a free chunk into a smallbin. */
    method InsertSmallChunk(p: Word, s: Word)
      requires BinsOk(mem, smallmap, treemap, bins, msp, hi) && Insertable(bins, msp, hi, p, s) && s < MIN_LARGE_SIZE
      modifies `mem, `smallmap, `bins
      ensures BinsOk(mem, smallmap, treemap, bins, msp, hi)
      ensures bins.free == old(bins.free)[p := s]
      ensures Frame(old(mem), mem, bins.free, msp)
    {
      hide *;
      InsertSmallReads(mem, smallmap, treemap, bins, msp, hi, p, s);
      InsertSmallOk(mem, smallmap, treemap, bins, msp, hi, p, s, Header(msp, s), SmallFirst(bins, msp, s));
      var I := s / 8;
      var B := Header(msp, 8 * I);
      var F := B;
      if And(smallmap, IdxBit(I)) == 0 {
        smallmap := Or(smallmap, IdxBit(I));
      } else {
        F := mem[B + 8];
      }
      mem := mem[B + 8 := p];
      mem := mem[F + 12 := p];
      mem := mem[p + 8 := F];
      mem := mem[p + 12 := B];
      InsertMemIs(old(mem), mem, B, F, p);
      bins := SmallInserted(bins, p, s);
      SmallInsertedFree(old(bins), p, s);
    }

    /** The end of `insert_large_chunk` in an empty treebin. */
    method LinkRoot(p: Word, s: Word, I: Word, H: Word, ghost m0: Mem)
      requires BinsOk(m0, smallmap, treemap, bins, msp, hi) && Insertable(bins, msp, hi, p, s) && s >= MIN_LARGE_SIZE
      requires mem == m0[p + 28 := I][p + 16 := 0][p + 20 := 0]
      requires I == Idx(s) && |bins.roots| == 32 && bins.roots[I] == 0 && H == Slot(msp, I)
      modifies `mem, `treemap, `bins
      ensures BinsOk(mem, smallmap, treemap, bins, msp, hi)
      ensures bins.free == old(bins.free)[p := s]
      ensures Frame(m0, mem, bins.free, msp)
    {
      hide *;
      InsertRootBins(m0, smallmap, treemap, bins, msp, hi, p, s, I, H);
      IdxBitPos(I);
      treemap := Or(treemap, IdxBit(I));
      mem := mem[H := p];
      mem := mem[p + 24 := H];
      mem := mem[p + 8 := p];
      mem := mem[p + 12 := p];
      NewNodeMemIs(m0, p, I, H, H);
      bins := NodeAdded(bins, p, s, InsertRoot(bins.trie, s), bins.roots[I := s]);
    }

    /** The end of `insert_large_chunk` at a missing child of the node at `T`. */
    method LinkBelow(p: Word, s: Word, I: Word, T: Word, c: int, ghost m0: Mem, ghost u: int, ghost k: nat)
      requires BinsOk(m0, smallmap, treemap, bins, msp, hi) && Insertable(bins, msp, hi, p, s) && s >= MIN_LARGE_SIZE
      requires mem == m0[p + 28 := I][p + 16 := 0][p + 20 := 0]
      requires I == Idx(s) && WalkEnd(bins, u, s) && T == At(Heads(bins), u)
      requires k > 0 && OnPath(bins.trie, u, s, k) && c == T + 16 + 4 * Bit(s, k - 1)
      modifies `mem, `bins
      ensures BinsOk(mem, smallmap, treemap, bins, msp, hi)
      ensures bins.free == old(bins.free)[p := s]
      ensures Frame(m0, mem, bins.free, msp)
    {
      hide *;
      OnPathIn(bins.trie, u, s, k);
      InsertBelowBins(m0, smallmap, treemap, bins, msp, hi, p, s, I, u, T);
      mem := mem[c := p];
      mem := mem[p + 24 := T];
      mem := mem[p + 8 := p];
      mem := mem[p + 12 := p];
      NewNodeMemIs(m0, p, I, T, c);
      bins := AddedBelow(bins, p, u, s);
    }

    /** The end of `insert_large_chunk` at a node of the same size, the one at `T`. */
    method LinkChained(p: Word, s: Word, I: Word, T: Word, ghost m0: Mem)
      requires BinsOk(m0, smallmap, treemap, bins, msp, hi) && Insertable(bins, msp, hi, p, s) && s >= MIN_LARGE_SIZE
      requires mem == m0[p + 28 := I][p + 16 := 0][p + 20 := 0]
      requires I == Idx(s) && s in bins.rings && T == At(Heads(bins), s) && (T + 32 <= p || p + 32 <= T)
      modifies `mem, `bins
      ensures BinsOk(mem, smallmap, treemap, bins, msp, hi)
      ensures bins.free == old(bins.free)[p := s]
      ensures Frame(m0, mem, bins.free, msp)
    {
      hide *;
      ChainBins(m0, smallmap, treemap, bins, msp, hi, p, s, I, T, Fd(m0, T));
      RdIn(m0, T + 8);
      PreparedReads(m0, p, I, T + 8);
      FdIs(m0, T);
      WordZero();
      var F := mem[T + 8];
      mem := mem[T + 8 := p];
      mem := mem[F as int + 12 := p];
      mem := mem[p + 8 := F];
      mem := mem[p + 12 := T];
      mem := mem[p + 24 := 0];
      ChainedMemIs(m0, p, I, T, F);
      bins := Chained(bins, p, s);
    }

    /** Insert a chunk into a tree. */
    method InsertLargeChunk(p: Word, s: Word)
      requires BinsOk(mem, smallmap, treemap, bins, msp, hi) && Insertable(bins, msp, hi, p, s) && s >= MIN_LARGE_SIZE
      requires Sized(mem, bins.free)
      modifies `mem, `treemap, `bins
      ensures BinsOk(mem, smallmap, treemap, bins, msp, hi)
      ensures bins.free == old(bins.free)[p := s]
      ensures Frame(old(mem), mem, bins.free, msp)
    {
      hide *;
      InsertLargeReads(mem, smallmap, treemap, bins, msp, hi, p, s);
      ghost var m0 := mem;
      var I := TreeIndex(s);
      var H := Slot(msp, I);
      mem := mem[p + 28 := I];
      mem := mem[p + 16 := 0];
      mem := mem[p + 20 := 0];
      ghost var m1 := mem;
      if And(treemap, IdxBit(I)) == 0 {
        LinkRoot(p, s, I, H, m0);
      } else {
        SlotReads(m0, smallmap, treemap, bins, msp, hi, I);
        PreparedReads(m0, p, I, H);
        ghost var u := bins.roots[I];
        ghost var k := RootLevel(I);
        PathStart(bins.trie, bins.roots, s);
        var T := mem[H];
        var K := Shl(s, LeftShift(I));
        while true
          invariant mem == m1 && bins == old(bins) && treemap == old(treemap)
          invariant OnPath(bins.trie, u, s, k) && T == At(Heads(bins), u)
          invariant k <= 32 && K == Shl(s, 32 - k)
          decreases k
        {
          OnPathIn(bins.trie, u, s, k);
          NodeReads(m0, smallmap, treemap, bins, msp, hi, u);
          NodeReadIs(m0, bins, u);
          TreeClear(m0, smallmap, treemap, bins, msp, hi, p, s, u);
          PreparedReads(m0, p, I, T + 4);
          if ChunkSize(mem[T + 4]) != s {
            var c := T + 16 + 4 * TopBit(K);
            WalkStep(m0, smallmap, treemap, bins, msp, hi, u, s, k, K, c);
            RdAt(m0, c);
            K := Shl(K, 1);
            PreparedReads(m0, p, I, c);
            if mem[c] != 0 {
              T := mem[c];
              u, k := Toward(bins.trie, u, s, k), k - 1;
            } else {
              LinkBelow(p, s, I, T, c, m0, u, k);
              break;
            }
          } else {
            LinkChained(p, s, I, T, m0);
            break;
          }
        }
      }
    }

    /** Unlink a chunk from a smallbin. */
    method UnlinkSmallChunk(p: Word, s: Word)
      requires BinsOk(mem, smallmap, treemap, bins, msp, hi) && p in bins.free && bins.free[p] == s
               && s < MIN_LARGE_SIZE
      modifies `mem, `smallmap, `bins
      ensures BinsOk(mem, smallmap, treemap, bins, msp, hi)
      ensures bins.free == old(bins.free) - {p}
      ensures Frame(old(mem), mem, old(bins.free), msp)
    {
      hide *;
      UnlinkSmallReads(mem, smallmap, treemap, bins, msp, hi, p);
      UnlinkSmallOk(mem, smallmap, treemap, bins, msp, hi, p);
      var F := mem[p + 8];
      var B := mem[p + 12];
      var I := s / 8;
      assert F == Header(msp, 8 * I) || (F >= msp && mem[F + 12] == p);
      if B == F {
        smallmap := And(smallmap, Not(IdxBit(I)));
      } else {
        assert B == Header(msp, 8 * I) || (B >= msp && mem[B + 8] == p);
        mem := mem[F + 12 := B];
        mem := mem[B + 8 := F];
      }
      RemoveMemIs(old(mem), F, B);
      bins := RingRemoved(bins, p);
    }

    /** The rightmost descendent of the node at `X`, and the child word that points at it; none for a leaf. */
    method RightmostLeaf(X: Word, ghost s: int) returns (R: Word, RP: int, ghost z: int)
      requires BinsOk(mem, smallmap, treemap, bins, msp, hi) && Sized(mem, bins.free) && s in bins.trie
               && X == At(Heads(bins), s)
      ensures R == 0 <==> bins.trie[s].c0 == 0 && bins.trie[s].c1 == 0
      ensures R != 0 ==>
                && z in bins.trie && LeafBelow(bins.trie, s, z) && R == At(Heads(bins), z)
                && RP == PlaceSlot(Heads(bins), bins.trie, msp, z)
    {
      hide *;
      BinsParts(mem, smallmap, treemap, bins, msp, hi);
      NodeReads(mem, smallmap, treemap, bins, msp, hi, s);
      NodeReadIs(mem, bins, s);
      SelfSub(bins.trie, s);
      z := bins.trie[s].c1;
      RP := X + 20;
      R := mem[RP];
      if R == 0 {
        z := bins.trie[s].c0;
        RP := X + 16;
        R := mem[RP];
      }
      NodeReads2(mem, smallmap, treemap, bins, msp, hi, s);
      if R != 0 {
        NodeReads(mem, smallmap, treemap, bins, msp, hi, z);
        NodeReadIs(mem, bins, z);
        DescendStep(bins.trie, bins.roots, s, s, z);
        ChildSlot(Heads(bins), bins.trie, msp, s, z, if z == bins.trie[s].c0 then 0 else 1);
        while mem[R + 20] != 0 || mem[R + 16] != 0
          invariant R + 20 in mem && R + 16 in mem && 0 < R < W
          invariant z in bins.trie && Descends(bins.trie, s, z) && R == At(Heads(bins), z)
          invariant RP == PlaceSlot(Heads(bins), bins.trie, msp, z)
          decreases bins.trie[z].level
        {
          DescendIn(bins.trie, s, z);
          NodeReads(mem, smallmap, treemap, bins, msp, hi, z);
          NodeReadIs(mem, bins, z);
          NodeReads2(mem, smallmap, treemap, bins, msp, hi, z);
          ghost var c := if mem[R + 20] != 0 then bins.trie[z].c1 else bins.trie[z].c0;
          RP := if mem[R + 20] != 0 then R as int + 20 else R as int + 16;
          R := mem[RP];
          NodeReads(mem, smallmap, treemap, bins, msp, hi, c);
          NodeReadIs(mem, bins, c);
          DescendStep(bins.trie, bins.roots, s, z, c);
          ChildSlot(Heads(bins), bins.trie, msp, z, c, if c == bins.trie[z].c0 then 0 else 1);
          z := c;
        }
        DescendIn(bins.trie, s, z);
        NodeReads(mem, smallmap, treemap, bins, msp, hi, z);
        NodeReadIs(mem, bins, z);
        NodeReads2(mem, smallmap, treemap, bins, msp, hi, z);
      }
    }

    /**
      The second half of `unlink_large_chunk`: the chunk at `R`, if any, takes the place and the children of the node
      at `X`.  The ghost arguments are the tries as they stand in memory at this point.
     */
    method Replug(X: Word, R: Word, XP: Word, ghost h: map<int, int>, ghost t: Trie, ghost roots: seq<int>,
                  ghost s: int, ghost z: int)
      requires Wf(t, roots) && HeadsOk(h, t, msp) && NodesMem(mem, h, t, roots, msp) && |roots| == 32
      requires s in t && s in h && X == h[s] && XP == Rd(mem, X + 24)
      requires X + 16 in mem && X + 20 in mem && X + 28 in mem && mem[X + 28] == Idx(s) && Slot(msp, Idx(s)) in mem
      requires t[s].up != 0 ==> XP + 16 in mem
      requires 0 <= IdxBit(Idx(s)) < W
      requires R != 0 ==> Relinkable(mem, h, t, roots, msp, s, z, R)
      modifies `mem, `treemap
      ensures var a := PlaceSlot(h, t, msp, s); mem == if R == 0 then old(mem)[a := 0]
              else RelinkMem(old(mem), a, X, R, XP)
      ensures treemap == if R == 0 && roots[Idx(s)] == s then And(old(treemap), Not(IdxBit(Idx(s)))) else old(treemap)
    {
      hide *;
      FindPlace(mem, h, t, roots, msp, s);
      RdAt(mem, Slot(msp, Idx(s)));
      RdAt(mem, XP as int + 16);
      var I := mem[X + 28];
      var H := Slot(msp, I);
      ghost var a := PlaceSlot(h, t, msp, s);
      AndWord(treemap, Not(IdxBit(I)), I);
      if X == mem[H] {
        mem := mem[H := R];
        if R == 0 {
          treemap := And(treemap, Not(IdxBit(I)));
        }
      } else if mem[XP as int + 16] == X {
        mem := mem[XP as int + 16 := R];
      } else {
        mem := mem[XP as int + 20 := R];
      }
      assert mem == old(mem)[a := R];
      if R != 0 {
        RelinkReads(old(mem), h, t, roots, msp, s, z, R);
        mem := mem[R as int + 24 := XP];
        RdAt(mem, X as int + 16);
        var C0 := mem[X as int + 16];
        if C0 != 0 {
          mem := mem[R as int + 16 := C0];
          mem := mem[C0 as int + 24 := R];
        }
        RdAt(mem, X as int + 20);
        var C1 := mem[X as int + 20];
        if C1 != 0 {
          mem := mem[R as int + 20 := C1];
          mem := mem[C1 as int + 24 := R];
        }
        RelinkMemIs(old(mem), a, X, R, XP, mem);
      }
    }

    /** Unlink a chunk from a tree. */
    method UnlinkLargeChunk(X: Word)
      requires BinsOk(mem, smallmap, treemap, bins, msp, hi) && Sized(mem, bins.free)
      requires X in bins.free && bins.free[X] >= MIN_LARGE_SIZE
      modifies `mem, `treemap, `bins
      ensures BinsOk(mem, smallmap, treemap, bins, msp, hi)
      ensures bins.free == old(bins.free) - {X}
      ensures Frame(old(mem), mem, old(bins.free), msp)
    {
      hide *;
      UnlinkLargeReads(mem, smallmap, treemap, bins, msp, hi, X);
      LargeLinksIs(mem, bins, msp, X, bins.free[X], Fd(mem, X), Bk(mem, X));
      ghost var s := bins.free[X];
      var XP := mem[X + 24];
      if mem[X + 12] != X {
        var F := mem[X + 8];
        var R := mem[X + 12];
        assert F >= msp && mem[F as int + 12] == X && mem[R as int + 8] == X;
        mem := mem[F as int + 12 := R];
        mem := mem[R as int + 8 := F];
        RdAt(old(mem), X as int + 28);
        RdAt(mem, X as int + 28);
        RemoveMemIs(old(mem), F, R);
        if XP != 0 {
          UnlinkPromoteBins(old(mem), smallmap, treemap, bins, msp, hi, X, F, R);
          PromoteReady(old(mem), mem, smallmap, treemap, bins, msp, hi, X, F, R);
          Replug(X, R, XP, Heads(bins), bins.trie, bins.roots, s, s);
          bins := Promoted(bins, X, s);
        } else {
          UnlinkChainBins(old(mem), smallmap, treemap, bins, msp, hi, X);
          bins := RingRemoved(bins, X);
        }
      } else {
        BinsParts(mem, smallmap, treemap, bins, msp, hi);
        OnlyChunk(bins, msp, hi, X);
        var R, RP;
        ghost var z;
        R, RP, z := RightmostLeaf(X, s);
        if R != 0 {
          mem := mem[RP := 0];
          RdAt(old(mem), X as int + 28);
          RdAt(mem, X as int + 28);
          LeafBelowFacts(bins.trie, bins.roots, s, z);
          UnlinkSwapBins(old(mem), smallmap, treemap, bins, msp, hi, X, z);
          SwapReady(old(mem), smallmap, treemap, bins, msp, hi, X, z);
          Replug(X, R, XP, Heads(bins), RemoveLeaf(bins.trie, z), DropRoots(bins.roots, z), s, z);
          bins := NodeGone(bins, X, s, SwapTrie(bins.trie, s, z), SwapRoots(bins.roots, s, z));
        } else {
          UnlinkLeafBins(mem, smallmap, treemap, bins, msp, hi, X);
          LeafReady(mem, smallmap, treemap, bins, msp, hi, X);
          Replug(X, R, XP, Heads(bins), bins.trie, bins.roots, s, s);
          bins := NodeGone(bins, X, s, RemoveLeaf(bins.trie, s), DropRoots(bins.roots, s));
        }
      }
    }

    /** Unlink the first chunk of the smallbin `i`. */
    method UnlinkFirstSmallChunk(i: nat) returns (p: Word)
      requires BinsOk(mem, smallmap, treemap, bins, msp, hi) && i < 32 && Marked(smallmap, i)
      modifies `mem, `smallmap, `bins
      ensures p in old(bins.free) && old(bins.free)[p] == 8 * i
      ensures BinsOk(mem, smallmap, treemap, bins, msp, hi)
      ensures bins.free == old(bins.free) - {p}
      ensures Frame(old(mem), mem, old(bins.free), msp)
    {
      hide *;
      FirstSmallReads(mem, smallmap, treemap, bins, msp, hi, i);
      var B := Header(msp, 8 * i);
      p := mem[B + 8];
      SmallIndex(i);
      UnlinkSmallReads(mem, smallmap, treemap, bins, msp, hi, p);
      UnlinkSmallOk(mem, smallmap, treemap, bins, msp, hi, p);
      var F := mem[p + 8];
      if B == F {
        smallmap := And(smallmap, Not(IdxBit(i)));
      } else {
        assert F >= msp && mem[F + 12] == p;
        mem := mem[F + 12 := B];
        mem := mem[B + 8 := F];
      }
      RemoveMemIs(old(mem), F, B);
      bins := RingRemoved(bins, p);
    }

    /** Unlink a free chunk from its bin, small or large. */
    method UnlinkChunk(p: Word, s: Word)
      requires Core(mem, smallmap, treemap, top, topsize, C, last, bins, msp, hi) && p in bins.free && bins.free[p] == s
      modifies `mem, `smallmap, `treemap, `bins
      ensures Core(mem, smallmap, treemap, top, topsize, C, last, bins, msp, hi)
      ensures bins.free == old(bins.free) - {p}
      ensures AllKept(old(mem), mem, Live(C, msp))
    {
      hide *;
      CoreParts(mem, smallmap, treemap, top, topsize, C, last, bins, msp, hi);
      CoreSized(mem, C, msp, top, last, topsize, hi, bins.free);
      IsSmall(s);
      if s / 8 < 32 {
        UnlinkSmallChunk(p, s);
      } else {
        UnlinkLargeChunk(p);
      }
      SomeFreeMinus(C, old(bins.free), p);
      BinStep(old(mem), mem, old(smallmap), old(treemap), smallmap, treemap, top, topsize, C, last, old(bins), bins,
          msp, hi, old(bins.free));
    }

    /** Link a free chunk into the bin of its size. */
    method InsertChunk(p: Word, s: Word)
      requires Core(mem, smallmap, treemap, top, topsize, C, last, bins, msp, hi)
      requires p in C && !C[p].inuse && C[p].size == s && p !in bins.free
      modifies `mem, `smallmap, `treemap, `bins
      ensures Core(mem, smallmap, treemap, top, topsize, C, last, bins, msp, hi)
      ensures bins.free == old(bins.free)[p := s]
      ensures AllKept(old(mem), mem, Live(C, msp))
    {
      hide *;
      CoreParts(mem, smallmap, treemap, top, topsize, C, last, bins, msp, hi);
      CoreSized(mem, C, msp, top, last, topsize, hi, bins.free);
      TopBound(mem, top, topsize, hi);
      CanInsert(C, msp, top, last, hi, bins, p);
      IsSmall(s);
      if s / 8 < 32 {
        InsertSmallChunk(p, s);
      } else {
        InsertLargeChunk(p, s);
      }
      SomeFreePlus(C, old(bins.free), p);
      BinStep(old(mem), mem, old(smallmap), old(treemap), smallmap, treemap, top, topsize, C, last, old(bins), bins,
          msp, hi, bins.free);
    }

    // ---------------------------------------------------------------- the invariant

    /** The bins hold exactly the free chunks other than the designated victim. */
    ghost predicate Valid()
      reads this
    {
      && Core(mem, smallmap, treemap, top, topsize, C, last, bins, msp, hi)
      && DvOk(C, dv, dvsize)
      && bins.free == FreeMap(C, {dv})
    }

    lemma ValidParts()
      ensures Valid() <==>
              && Core(mem, smallmap, treemap, top, topsize, C, last, bins, msp, hi)
              && DvOk(C, dv, dvsize)
              && bins.free == FreeMap(C, {dv})
    {
    }

    /**
      A fresh space in the words `contents` of [base, base + capacity), of which those before the first aligned address
      stay unused.
     */
    constructor (base: Word, capacity: Word, contents: Mem)
      requires 0 < base && base + capacity <= W && (base + capacity) % 4 == 0
      requires STATE_SIZE + TOP_FOOT_SIZE + (AlignAsChunk(base) - base) < capacity
      requires DomOk(contents, AlignAsChunk(base), base + capacity)
      ensures Valid() && msp == AlignAsChunk(base) && hi == base + capacity && footprint == capacity
      ensures IsFresh()
    {
      hide *;
      StateBounds(base, capacity, contents);
      msp, hi, footprint := AlignAsChunk(base), base + capacity, capacity;
      smallmap, treemap, dv, dvsize := 0, 0, 0, 0;
      C, last, bins := StateChunk(AlignAsChunk(base)), AlignAsChunk(base), NO_BINS;
      top := AlignAsChunk(base) + STATE_SIZE;
      topsize := InitialTopSize(base, capacity);
      mem := Zeroed(contents, AlignAsChunk(base) + 8, AlignAsChunk(base) + 8 + STATE_SIZE);
      new;
      ZeroedWords(contents, msp, hi);
      mem := mem[msp + 4 := STATE_SIZE + 3];
      DomStore(Zeroed(contents, msp + 8, msp + 8 + STATE_SIZE), msp, hi, msp + 4, STATE_SIZE + 3);
      var i := 0;
      while i < 32
        modifies `mem
        invariant 0 <= i <= 32 && DomOk(mem, msp, hi) && Rd(mem, msp + 4) == STATE_SIZE + 3
        invariant forall j :: 0 <= j < 32 ==> Rd(mem, Slot(msp, j)) == 0
      {
        HeaderIndex(i);
        HeaderWords(mem, msp, hi, 8 * i);
        var bin := Header(msp, 8 * i);
        HeaderStore(mem, msp, hi, i);
        mem := mem[bin + 12 := bin][bin + 8 := bin];
        i := i + 1;
      }
      TopStores(mem, msp, hi, topsize);
      mem := InitTop(mem, top, topsize);
      FreshCore(mem, msp, hi, topsize);
      NoDv(C);
      FreshFree(msp);
      FreshLive(msp);
      ValidParts();
      FreshParts();
    }

    /** One top chunk after the state chunk, no block, nothing in the bins and no designated victim. */
    ghost predicate IsFresh()
      reads this
    {
      && C == StateChunk(msp) && Live(C, msp) == map[] && top == msp + STATE_SIZE && topsize == hi - TOP_FOOT_SIZE - top
      && smallmap == 0 && treemap == 0 && dv == 0 && dvsize == 0
    }

    lemma FreshParts()
      ensures IsFresh() <==>
              && C == StateChunk(msp) && Live(C, msp) == map[] && top == msp + STATE_SIZE
                 && topsize == hi - TOP_FOOT_SIZE - top
              && smallmap == 0 && treemap == 0 && dv == 0 && dvsize == 0
    {
    }

    /**
      Whatever the order in which its blocks were freed, a space without blocks has the shape it had when it was made.
     */
    lemma EmptyIsFresh()
      requires Valid() && Live(C, msp) == map[]
      ensures IsFresh()
    {
      hide BinsOk;
      hide ArenaOk;
      hide Tags;
      ValidParts();
      CoreParts(mem, smallmap, treemap, top, topsize, C, last, bins, msp, hi);
      OnlyState(C, msp, top, last);
      NoChunkZero(C, msp, top, last);
      DvFacts(C, dv, dvsize);
      EmptyMaps(mem, smallmap, treemap, bins, msp, hi);
    }

    /** Live blocks are aligned, lie between the state chunk and top, and do not overlap. */
    lemma LiveBlocks()
      requires Valid()
      ensures var live := Live(C, msp);
              && (forall p :: p in live ==>
                   p % 8 == 0 && msp + STATE_SIZE <= p && p + live[p] <= top && 16 <= live[p] && live[p] % 8 == 0)
              && (forall p, q :: p in live && q in live && p < q ==> p + live[p] <= q)
    {
      hide *;
      ValidParts();
      CoreParts(mem, smallmap, treemap, top, topsize, C, last, bins, msp, hi);
      BlocksApart(C, msp, top, last);
    }

    /** A program's write to a word of one of its blocks. */
    method Store(p: Word, a: Word, v: Word)
      requires Valid() && p in Live(C, msp) && p + 8 <= a < p + Live(C, msp)[p] + 4 && a % 4 == 0
      modifies `mem
      ensures Valid() && Rd(mem, a) == v
      ensures AllKept(old(mem), mem, Live(C, msp) - {p})
    {
      hide *;
      ValidParts();
      CoreParts(mem, smallmap, treemap, top, topsize, C, last, bins, msp, hi);
      PayloadAt(mem, C, msp, top, last, topsize, hi, p, a);
      WriteStep(mem, smallmap, treemap, top, topsize, C, last, bins, msp, hi, p, a, v);
      OneStore(mem, a, v);
      mem := mem[a := v];
      ValidParts();
    }

    /** The statistics: bytes of all chunks, number of free chunks, bytes in use and bytes free. */
    method Mallinfo() returns (arena: int, ordblks: int, uordblks: int, fordblks: int)
      requires Valid()
      ensures arena == hi - msp
      ensures ordblks == 1 + |FreeMap(C, {})|
      ensures fordblks == topsize + TOP_FOOT_SIZE + Total(FreeMap(C, {}))
      ensures uordblks + fordblks == footprint
      ensures uordblks == Total(Live(C, msp)) + STATE_SIZE + (footprint - (hi - msp))
    {
      hide *;
      ValidParts();
      CoreParts(mem, smallmap, treemap, top, topsize, C, last, bins, msp, hi);
      TopBound(mem, top, topsize, hi);
      CountStart(C, msp, top, last);
      NoTotal(UsedBelow(C, msp, msp));
      NoTotal(FreeBelow(C, msp));
      StateIs(C, msp, top, last);
      var nfree := 1;
      var mfree := topsize as int + TOP_FOOT_SIZE;
      var sum := mfree;
      var q: int := msp;
      while q != top
        invariant (q in C || q == top) && q <= top
        invariant sum == topsize + TOP_FOOT_SIZE + (q - msp)
        invariant mfree == topsize + TOP_FOOT_SIZE + Total(FreeBelow(C, q))
        invariant nfree == 1 + |FreeBelow(C, q)|
        invariant Total(UsedBelow(C, msp, q)) + Total(FreeBelow(C, q)) + (if q == msp then 0 else STATE_SIZE) == q - msp
        decreases top - q
      {
        HeadReads(mem, C, msp, top, last, topsize, hi, q);
        CountStep(C, msp, top, last, q);
        var sz := ChunkSize(mem[q + 4]);
        sum := sum + sz;
        if !CBit(mem[q + 4]) {
          mfree := mfree + sz;
          nfree := nfree + 1;
        }
        q := q + sz;
      }
      CountEnd(C, msp, top, last);
      TopAfterState(C, msp, top, last);
      arena, ordblks, uordblks, fordblks := sum, nfree, footprint - mfree, mfree;
    }

    // ---------------------------------------------------------------- free

    /** Turns a region into one free chunk. */
    method SetFree(lo: Word, e: Word, clear: bool, ghost p: int)
      requires Core(mem, smallmap, treemap, top, topsize, C, last, bins, msp, hi)
      requires Region(C, lo, p, e) && p != msp && Closed(C, lo, e) && (clear <==> e == End(C, p))
               && Clear(bins.free, lo, e)
      modifies `mem, `C
      ensures C == Fuse(old(C), lo, e, false)
      ensures Core(mem, smallmap, treemap, top, topsize, C, last, bins, msp, hi)
      ensures AllKept(old(mem), mem, Live(C, msp))
    {
      hide *;
      FreeStep(mem, smallmap, treemap, top, topsize, C, last, bins, msp, hi, lo, p, e, clear);
      mem := FreeMem(mem, lo, e, clear);
      C := Fuse(C, lo, e, false);
    }

    /** Gives [lo, top), which ends with the block `p`, to top. */
    method ToTop(lo: Word, size: Word, ghost p: int)
      requires Core(mem, smallmap, treemap, top, topsize, C, last, bins, msp, hi)
      requires Region(C, lo, p, top) && End(C, p) == top && p != msp && size == top - lo
      requires C[lo].prev in C && C[C[lo].prev].inuse
      requires DvOk(C, dv, dvsize) && bins.free == FreeMap(C, {dv} + {lo})
      modifies this
      ensures Valid()
      ensures Live(C, msp) == Live(old(C), msp) - {p}
      ensures AllKept(old(mem), mem, Live(C, msp))
      ensures VictimKept(C, top, old(dv), dv)
    {
      hide *;
      CoreParts(mem, smallmap, treemap, top, topsize, C, last, bins, msp, hi);
      NoChunkZero(C, msp, top, last);
      RegionChunks(C, msp, top, last, lo, p, top);
      FreeMapIs(C, {dv} + {lo}, lo);
      FreeMapSkip(C, {lo}, 0);
      RegionAbsorbed(C, msp, top, last, lo, p);
      AbsorbedDv(C, msp, top, last, lo, p, dv, dvsize);
      AbsorbedStep(mem, smallmap, treemap, top, topsize, C, last, bins, msp, hi, lo, p, size);
      assert FreeMap(Absorb(C, lo), {dv}) == FreeMap(C, {dv} + {lo});
      assert FreeMap(Absorb(C, lo), {0}) == FreeMap(C, {0} + {lo});
      topsize := topsize + size;
      top := lo;
      mem := mem[lo + 4 := topsize + 1];
      last := C[lo].prev;
      C := Absorb(C, lo);
      if lo == dv {
        assert {dv} + {lo} == {lo} && {lo} + {0} == {0} + {lo};
        dv := 0;
        dvsize := 0;
        VictimGone(C, top, lo);
      } else {
        CoreParts(mem, smallmap, treemap, top, topsize, C, last, bins, msp, hi);
        VictimSame(C, msp, top, last, dv, dvsize);
      }
      ValidParts();
    }

    /** Merges [lo, next), which holds the block `p`, with the binned chunk after it. */
    method MergeNext(lo: Word, size: Word, next: Word, ghost p: int)
      requires Core(mem, smallmap, treemap, top, topsize, C, last, bins, msp, hi)
      requires p in C && next == End(C, p) && Region(C, lo, p, next) && p != msp && size == next - lo
      requires C[lo].prev in C && C[C[lo].prev].inuse
      requires DvOk(C, dv, dvsize) && bins.free == FreeMap(C, {dv} + {lo})
      requires next in C && !C[next].inuse && next != dv
      modifies this
      ensures Valid()
      ensures Live(C, msp) == Live(old(C), msp) - {p}
      ensures AllKept(old(mem), mem, Live(C, msp))
      ensures VictimKept(C, top, old(dv), dv)
    {
      hide *;
      ghost var C0, e := C, End(C, next);
      CoreParts(mem, smallmap, treemap, top, topsize, C, last, bins, msp, hi);
      RegionChunks(C, msp, top, last, lo, p, next);
      FreeMapIs(C, {dv} + {lo}, lo);
      FreeMapIs(C, {dv} + {lo}, next);
      FreeMapMinus(C, {dv} + {lo}, next);
      HeadReads(mem, C, msp, top, last, topsize, hi, next);
      RegionGrows(C, msp, top, last, lo, p);
      RegionFused(C, msp, top, last, lo, p, e);
      FusedDv(C, msp, top, last, lo, p, e, dv, dvsize);
      var nsize := ChunkSize(mem[next + 4]);
      UnlinkChunk(next, nsize);
      CoreParts(mem, smallmap, treemap, top, topsize, C, last, bins, msp, hi);
      RegionClear(C, msp, top, last, lo, p, e, bins.free);
      assert {dv} + {lo} + {next} == {dv} + {lo, next};
      label unlinked:
      SetFree(lo, lo + size + nsize, false, p);
      assert FreeMap(C, {} + {lo}) == FreeMap(C0, {} + {lo, next});
      KeptTrans(old(mem), old@unlinked(mem), mem, Live(C, msp), Live(C0, msp), Live(C, msp));
      if lo == dv {
        assert {} + {lo} == {dv} && {} + {lo, next} == {dv} + {lo, next};
        dvsize := size + nsize;
      } else {
        FusedFiled(C0, msp, top, last, lo, p, e, dv);
        label fused:
        InsertChunk(lo, size + nsize);
        KeptTrans(old(mem), old@fused(mem), mem, Live(C, msp), Live(C, msp), Live(C, msp));
      }
      ValidParts();
      CoreParts(mem, smallmap, treemap, top, topsize, C, last, bins, msp, hi);
      VictimSame(C, msp, top, last, dv, dvsize);
    }

    /** Merges [lo, next), which holds the block `p`, with what follows it and files the result. */
    method MergeForward(lo: Word, size: Word, next: Word, ghost p: int)
      requires Core(mem, smallmap, treemap, top, topsize, C, last, bins, msp, hi)
      requires p in C && next == End(C, p) && Region(C, lo, p, next) && p != msp && size == next - lo
      requires C[lo].prev in C && C[C[lo].prev].inuse
      requires DvOk(C, dv, dvsize) && bins.free == FreeMap(C, {dv} + {lo})
      requires lo == dv ==> !(next in C && C[next].inuse)
      modifies this
      ensures Valid()
      ensures Live(C, msp) == Live(old(C), msp) - {p}
      ensures AllKept(old(mem), mem, Live(C, msp))
      ensures VictimKept(C, top, old(dv), dv)
    {
      hide *;
      CoreParts(mem, smallmap, treemap, top, topsize, C, last, bins, msp, hi);
      RegionBasics(C, lo, p);
      NextReads(mem, C, msp, top, last, topsize, hi, p);
      RegionChunks(C, msp, top, last, lo, p, next);
      NoChunkZero(C, msp, top, last);
      DvFacts(C, dv, dvsize);
      FreeMapIs(C, {dv} + {lo}, lo);
      FreeMapIs(C, {dv} + {lo}, next);
      if !CBit(mem[next + 4]) {
        if next == top {
          ToTop(lo, size, p);
        } else if next == dv {
          RegionGrows(C, msp, top, last, lo, p);
          RegionClear(C, msp, top, last, lo, p, End(C, next), bins.free);
          RegionFused(C, msp, top, last, lo, p, End(C, next));
          FusedDv(C, msp, top, last, lo, p, End(C, next), dv, dvsize);
          HeadReads(mem, C, msp, top, last, topsize, hi, next);
          assert FreeMap(Fuse(C, lo, End(C, next), false), {} + {lo}) == FreeMap(C, {} + {lo, next});
          assert {} + {lo} == {lo} && {} + {lo, next} == {dv} + {lo};
          dvsize := dvsize + size;
          dv := lo;
          SetFree(lo, lo + dvsize, false, p);
          CoreParts(mem, smallmap, treemap, top, topsize, C, last, bins, msp, hi);
          VictimGrew(C, msp, top, last, next, lo);
          ValidParts();
        } else {
          MergeNext(lo, size, next, p);
        }
      } else {
        RegionShut(C, lo, p);
        RegionClear(C, msp, top, last, lo, p, next, bins.free);
        RegionFused(C, msp, top, last, lo, p, next);
        FusedDv(C, msp, top, last, lo, p, next, dv, dvsize);
        FusedFiled(C, msp, top, last, lo, p, next, dv);
        FreeMapSkip(C, {dv} + {lo}, next);
        assert {dv} + {lo} + {next} == {dv} + {lo, next};
        SetFree(lo, next, true, p);
        label fused:
        InsertChunk(lo, size);
        KeptTrans(old(mem), old@fused(mem), mem, Live(C, msp), Live(C, msp), Live(C, msp));
        CoreParts(mem, smallmap, treemap, top, topsize, C, last, bins, msp, hi);
        VictimSame(C, msp, top, last, dv, dvsize);
        ValidParts();
      }
    }

    /** Consolidates and bins a chunk that is marked in use. */
    method DisposeChunk(p: Word, psize: Word)
      requires Valid() && p in C && p != msp && C[p].inuse && C[p].size == psize
      modifies this
      ensures Valid()
      ensures Live(C, msp) == old(Live(C, msp)) - {p}
      ensures AllKept(old(mem), mem, Live(C, msp))
      ensures VictimKept(C, top, old(dv), dv)
    {
      hide *;
      ValidParts();
      CoreParts(mem, smallmap, treemap, top, topsize, C, last, bins, msp, hi);
      HeadReads(mem, C, msp, top, last, topsize, hi, p);
      NoChunkZero(C, msp, top, last);
      DvFacts(C, dv, dvsize);
      var next := p + psize;
      if PBit(mem[p + 4]) {
        RegionAlone(C, msp, top, last, p);
        FreeMapSkip(C, {dv}, p);
        MergeForward(p, psize, next, p);
      } else {
        PrevReads(mem, C, msp, top, last, topsize, hi, p);
        NextReads(mem, C, msp, top, last, topsize, hi, p);
        var prevsize := mem[p];
        var prev := p - prevsize;
        RegionWithPrev(C, msp, top, last, p);
        HeadReads(mem, C, msp, top, last, topsize, hi, prev);
        FreeMapIs(C, {dv}, prev);
        FreeMapMinus(C, {dv}, prev);
        if prev != dv {
          UnlinkChunk(prev, prevsize);
          label unlinked:
          MergeForward(prev, prevsize + psize, next, p);
          KeptTrans(old(mem), old@unlinked(mem), mem, Live(C, msp), old(Live(C, msp)), Live(C, msp));
        } else if PBit(mem[next + 4]) && CBit(mem[next + 4]) {
          GrowVictim(psize, next, p);
        } else {
          assert {dv} + {prev} == {dv};
          MergeForward(prev, prevsize + psize, next, p);
        }
      }
    }

    /** Extends the designated victim over the block after it. */
    method GrowVictim(psize: Word, next: Word, ghost p: int)
      requires Valid() && dv in C && p == End(C, dv) && p in C && p != msp && C[p].inuse && C[p].size == psize
      requires next == End(C, p) && next in C && C[next].inuse
      modifies `mem, `C, `dvsize
      ensures Valid()
      ensures Live(C, msp) == old(Live(C, msp)) - {p}
      ensures AllKept(old(mem), mem, Live(C, msp))
      ensures VictimKept(C, top, old(dv), dv)
    {
      hide *;
      ValidParts();
      CoreParts(mem, smallmap, treemap, top, topsize, C, last, bins, msp, hi);
      NoChunkZero(C, msp, top, last);
      DvFacts(C, dv, dvsize);
      PrevIs(C, msp, top, last, dv);
      HeadReads(mem, C, msp, top, last, topsize, hi, p);
      HeadReads(mem, C, msp, top, last, topsize, hi, dv);
      RegionWithPrev(C, msp, top, last, p);
      RegionShut(C, dv, p);
      FreeMapIs(C, {dv}, dv);
      FreeMapIs(C, {dv}, next);
      RegionClear(C, msp, top, last, dv, p, next, bins.free);
      RegionFused(C, msp, top, last, dv, p, next);
      FusedDv(C, msp, top, last, dv, p, next, dv, dvsize);
      FreeMapSkip(C, {dv}, next);
      HeadReads(mem, C, msp, top, last, topsize, hi, next);
      assert FreeMap(Fuse(C, dv, next, false), {} + {dv}) == FreeMap(C, {} + {dv, next});
      assert {} + {dv} == {dv} && {} + {dv, next} == {dv} + {next};
      dvsize := dvsize + psize;
      SetFree(dv, next, true, p);
      ValidParts();
      CoreParts(mem, smallmap, treemap, top, topsize, C, last, bins, msp, hi);
      VictimSame(C, msp, top, last, dv, dvsize);
    }

    /** Frees the block whose payload starts at `payload`; a null pointer is ignored. */
    method Free(payload: Word)
      requires Valid() && (payload != 0 ==> payload - 8 in Live(C, msp))
      modifies this
      ensures Valid()
      ensures Live(C, msp) == if payload == 0 then old(Live(C, msp)) else old(Live(C, msp)) - {payload - 8}
      ensures AllKept(old(mem), mem, Live(C, msp))
      ensures VictimKept(C, top, old(dv), dv)
    {
      hide *;
      if payload != 0 {
        LiveIs(C, msp, payload - 8);
        ValidParts();
        CoreParts(mem, smallmap, treemap, top, topsize, C, last, bins, msp, hi);
        var p := payload - 8;
        HeadReads(mem, C, msp, top, last, topsize, hi, p);
        DisposeChunk(p, ChunkSize(mem[p + 4]));
      } else {
        ValidParts();
        CoreParts(mem, smallmap, treemap, top, topsize, C, last, bins, msp, hi);
        VictimSame(C, msp, top, last, dv, dvsize);
        KeptSame(mem, Live(C, msp));
      }
    }

    // ---------------------------------------------------------------- the best fit

    /** Goes on to the smallest size of the subtree at `t0`, with the best fit `v0` and its remainder so far. */
    method Smallest(t0: Word, v0: Word, rsize0: Word, nb: Word, ghost x0: int, ghost vs0: int)
      returns (v: Word, rsize: Word, ghost vs: int)
      requires BinsOk(mem, smallmap, treemap, bins, msp, hi) && Sized(mem, bins.free) && nb > 0
      requires Narrowing(bins.trie, nb, x0, vs0)
      requires t0 == At(Heads(bins), x0) && v0 == At(Heads(bins), vs0) && rsize0 == Rem(vs0, nb)
      ensures BestFit(bins.trie, nb, vs) && v == At(Heads(bins), vs) && rsize == Rem(vs, nb)
    {
      hide *;
      BinsParts(mem, smallmap, treemap, bins, msp, hi);
      v, rsize, vs := v0, rsize0, vs0;
      var t := t0;
      ghost var x := x0;
      NarrowIn(bins.trie, nb, x, vs);
      NodeAt(mem, smallmap, treemap, bins, msp, hi, x);
      while t != 0
        invariant Narrowing(bins.trie, nb, x, vs) && (x != 0 ==> x in bins.trie) && (t == 0 <==> x == 0)
        invariant t == At(Heads(bins), x) && v == At(Heads(bins), vs) && rsize == Rem(vs, nb)
        decreases if x != 0 && x in bins.trie then bins.trie[x].level else 0
      {
        NarrowIn(bins.trie, nb, x, vs);
        FitReads(mem, smallmap, treemap, bins, msp, hi, nb, x, vs);
        NarrowStep(bins.trie, bins.roots, nb, x, vs);
        LeftmostIs(bins.trie[x]);
        var trem := Sub(ChunkSize(mem[t as int + 4]), nb);
        if trem < rsize {
          rsize := trem;
          v := t;
        }
        t := if mem[t as int + 16] != 0 then mem[t as int + 16] else mem[t as int + 20];
        vs := Better(vs, x, nb);
        x := LeftmostChild(bins.trie[x]);
      }
      NarrowDone(bins.trie, nb, vs);
    }

    /**
      Walks down the treebin of `nb` from its root `t0`.  Stops at an exact fit, or leaves in `t` the deepest right
      subtree not taken.
     */
    method SearchTree(nb: Word, t0: Word) returns (t: Word, v: Word, rsize: Word, ghost x: int, ghost vs: int)
      requires BinsOk(mem, smallmap, treemap, bins, msp, hi) && Sized(mem, bins.free) && LargeSize(nb)
      requires |bins.roots| == 32 && bins.roots[Idx(nb)] != 0 && t0 == At(Heads(bins), bins.roots[Idx(nb)])
      ensures t == At(Heads(bins), x) && v == At(Heads(bins), vs) && rsize == Rem(vs, nb)
      ensures Searched(bins.trie, nb, x, vs) || (vs == nb && Narrowing(bins.trie, nb, x, vs))
    {
      hide *;
      BinsParts(mem, smallmap, treemap, bins, msp, hi);
      LargeIs(nb);
      IdxIs(nb);
      RemIs(0, nb);
      NodeAt(mem, smallmap, treemap, bins, msp, hi, 0);
      SearchStart(bins.trie, bins.roots, nb);
      var sizebits: Word := Shl(nb, LeftShift(TreeIndex(nb)));
      var rst: Word := 0;
      ghost var r, k: nat := 0, RootLevel(Idx(nb));
      t, v, rsize := t0, 0, Neg(nb);
      x, vs := bins.roots[Idx(nb)], 0;
      while true
        invariant Searching(bins.trie, nb, k, x, r, vs) && k <= 32 && vs != nb && sizebits == Shl(nb, 32 - k)
        invariant t == At(Heads(bins), x) && rst == At(Heads(bins), r)
        invariant v == At(Heads(bins), vs) && rsize == Rem(vs, nb)
        decreases k
      {
        SearchAt(bins.trie, nb, k, x, r, vs);
        FitReads(mem, smallmap, treemap, bins, msp, hi, nb, x, vs);
        BetterIs(vs, x, nb);
        RemIs(x, nb);
        var trem := Sub(ChunkSize(mem[t as int + 4]), nb);
        ghost var vs' := Better(vs, x, nb);
        if trem < rsize {
          v := t;
          rsize := trem;
          if rsize == 0 {
            SearchExact(bins.trie, nb, k, x, r, vs);
            vs := vs';
            return;
          }
        }
        SearchReads(mem, smallmap, treemap, bins, msp, hi, nb, x, k, r, vs, sizebits);
        SearchReadIs(mem, bins, nb, x, k, r, sizebits);
        SearchStep(bins.trie, bins.roots, nb, k, x, r, vs);
        var rt := mem[t as int + 20];
        t := mem[t as int + 16 + 4 * TopBit(sizebits)];
        if rt != 0 && rt != t {
          rst := rt;
        }
        r := NextRight(bins.trie, x, nb, k, r);
        vs := vs';
        if t == 0 {
          t := rst;
          x := r;
          return;
        }
        x := Toward(bins.trie, x, nb, k);
        sizebits := Shl(sizebits, 1);
        k := k - 1;
      }
    }

    /** Finds the root of the first non-empty treebin after that of `nb`. */
    method NextTree(nb: Word) returns (t: Word, ghost x: int)
      requires BinsOk(mem, smallmap, treemap, bins, msp, hi) && Sized(mem, bins.free) && LargeSize(nb)
      requires Searched(bins.trie, nb, 0, 0)
      ensures t == At(Heads(bins), x) && Narrowing(bins.trie, nb, x, 0)
    {
      hide *;
      BinsParts(mem, smallmap, treemap, bins, msp, hi);
      LargeIs(nb);
      IdxIs(nb);
      NodeAt(mem, smallmap, treemap, bins, msp, hi, 0);
      var idx := TreeIndex(nb);
      LeftMarkedAll(treemap, idx);
      var leftbits := And(treemap, LeftBits(IdxBit(idx)));
      t, x := 0, 0;
      if leftbits != 0 {
        ghost var least := LeastMarked(leftbits);
        var i := Bit2Idx(LeastBit(leftbits));
        SlotReads(mem, smallmap, treemap, bins, msp, hi, i);
        LaterRoots(smallmap, treemap, bins, idx, i, leftbits);
        t := mem[Slot(msp, i)];
        x := bins.roots[i];
        NextBin(bins.trie, bins.roots, nb, i);
      } else {
        LaterRoots(smallmap, treemap, bins, idx, 32, leftbits);
        NoNextBin(bins.trie, bins.roots, nb);
      }
    }

    /** Finds the best fit of a large request among the treebins, and what it leaves over. */
    method FindLarge(nb: Word) returns (v: Word, rsize: Word)
      requires BinsOk(mem, smallmap, treemap, bins, msp, hi) && Sized(mem, bins.free) && LargeSize(nb)
      ensures BestChunk(bins.free, nb, v)
      ensures v != 0 ==> v in bins.free && rsize == bins.free[v] - nb
    {
      hide *;
      BinsParts(mem, smallmap, treemap, bins, msp, hi);
      LargeIs(nb);
      IdxIs(nb);
      RemIs(0, nb);
      NodeAt(mem, smallmap, treemap, bins, msp, hi, 0);
      ghost var x, vs := 0, 0;
      var idx := TreeIndex(nb);
      SlotReads(mem, smallmap, treemap, bins, msp, hi, idx);
      v, rsize := 0, Neg(nb);
      var t := mem[Slot(msp, idx)];
      if t != 0 {
        t, v, rsize, x, vs := SearchTree(nb, t);
      } else {
        NodeAt(mem, smallmap, treemap, bins, msp, hi, bins.roots[idx]);
        NothingHere(bins.trie, bins.roots, nb);
      }
      SearchedIn(bins.trie, nb, x, vs);
      NodeAt(mem, smallmap, treemap, bins, msp, hi, x);
      NodeAt(mem, smallmap, treemap, bins, msp, hi, vs);
      if t == 0 && v == 0 {
        t, x := NextTree(nb);
      } else if Searched(bins.trie, nb, x, vs) {
        SearchedAll(bins.trie, bins.roots, nb, x, vs);
      }
      v, rsize, vs := Smallest(t, v, rsize, nb, x, vs);
      BestChunkIs(mem, smallmap, treemap, bins, msp, hi, nb, vs);
      RemIs(vs, nb);
    }

    /** Finds the smallest chunk of the treebins, and what a small request leaves of it. */
    method FindSmallest(nb: Word) returns (v: Word, rsize: Word)
      requires BinsOk(mem, smallmap, treemap, bins, msp, hi) && Sized(mem, bins.free)
      requires 0 < nb <= MIN_LARGE_SIZE && treemap != 0
      ensures BestChunk(bins.free, nb, v) && v in bins.free && rsize == bins.free[v] - nb
    {
      hide *;
      BinsParts(mem, smallmap, treemap, bins, msp, hi);
      NodeAt(mem, smallmap, treemap, bins, msp, hi, 0);
      RemIs(0, nb);
      ghost var least := LeastMarked(treemap);
      var i := Bit2Idx(LeastBit(treemap));
      SlotReads(mem, smallmap, treemap, bins, msp, hi, i);
      EarlierRoots(smallmap, treemap, bins, i);
      FirstBin(bins.trie, bins.roots, nb, i);
      var t := mem[Slot(msp, i)];
      ghost var vs;
      FirstFit(bins.trie, nb, bins.roots[i]);
      FitReads(mem, smallmap, treemap, bins, msp, hi, nb, bins.roots[i], 0);
      BetterIs(0, bins.roots[i], nb);
      NarrowStep(bins.trie, bins.roots, nb, bins.roots[i], 0);
      LeftmostIs(bins.trie[bins.roots[i]]);
      v := t;
      rsize := Sub(ChunkSize(mem[t as int + 4]), nb);
      t := if mem[t as int + 16] != 0 then mem[t as int + 16] else mem[t as int + 20];
      v, rsize, vs := Smallest(t, v, rsize, nb, LeftmostChild(bins.trie[bins.roots[i]]), bins.roots[i]);
      BestChunkIs(mem, smallmap, treemap, bins, msp, hi, nb, vs);
      SomeFits(bins.trie, nb, bins.roots[i], vs);
      RemIs(vs, nb);
    }

    // ---------------------------------------------------------------- malloc

    /** Marks a free chunk that is in no bin as in use. */
    method TakeWhole(p: Word, s: Word)
      requires Core(mem, smallmap, treemap, top, topsize, C, last, bins, msp, hi)
      requires p in C && !C[p].inuse && C[p].size == s && p !in bins.free
      modifies `mem, `C
      ensures Core(mem, smallmap, treemap, top, topsize, C, last, bins, msp, hi)
      ensures C == Taken(old(C), p)
      ensures AllKept(old(mem), mem, old(Live(C, msp)))
    {
      hide *;
      TakeStep(mem, smallmap, treemap, top, topsize, C, last, bins, msp, hi, p);
      mem := TakeMem(mem, p, s);
      C := Taken(C, p);
    }

    /** Marks the first `n` bytes of a free chunk that is in no bin as in use; the rest stays free. */
    method SplitFree(p: Word, n: Word, s: Word)
      requires Core(mem, smallmap, treemap, top, topsize, C, last, bins, msp, hi)
      requires p in C && !C[p].inuse && C[p].size == s && p !in bins.free && n % 8 == 0 && 16 <= n && 16 <= s - n
      modifies `mem, `C
      ensures Core(mem, smallmap, treemap, top, topsize, C, last, bins, msp, hi)
      ensures C == Halved(old(C), p, n) && 0 <= p + n < W
      ensures AllKept(old(mem), mem, old(Live(C, msp)))
    {
      hide *;
      SplitStep(mem, smallmap, treemap, top, topsize, C, last, bins, msp, hi, p, n);
      mem := SplitMem(mem, p, n, s);
      C := Halved(C, p, n);
    }

    /** Makes the free chunk `r` the designated victim and files the old one, which is small. */
    method ReplaceDv(r: Word, rsize: Word)
      requires Core(mem, smallmap, treemap, top, topsize, C, last, bins, msp, hi)
      requires DvOk(C, dv, dvsize) && dvsize < MIN_LARGE_SIZE
      requires r in C && !C[r].inuse && C[r].size == rsize && r != dv && bins.free == FreeMap(C, {dv} + {r})
      modifies `mem, `smallmap, `bins, `dv, `dvsize
      ensures Valid() && dv == r && dvsize == rsize
      ensures AllKept(old(mem), mem, Live(C, msp))
    {
      hide *;
      CoreParts(mem, smallmap, treemap, top, topsize, C, last, bins, msp, hi);
      NoChunkZero(C, msp, top, last);
      DvFacts(C, dv, dvsize);
      TopBound(mem, top, topsize, hi);
      HeadReads(mem, C, msp, top, last, topsize, hi, r);
      assert {r} + {dv} == {dv} + {r};
      if dvsize != 0 {
        FreeMapPlus(C, {r}, dv);
        FreeMapIs(C, {dv} + {r}, dv);
        CanInsert(C, msp, top, last, hi, bins, dv);
        InsertSmallChunk(dv, dvsize);
        SomeFreePlus(C, old(bins.free), dv);
        BinStep(old(mem), mem, old(smallmap), treemap, smallmap, treemap, top, topsize, C, last, old(bins), bins, msp,
            hi, bins.free);
      } else {
        FreeMapSkip(C, {r}, dv);
        KeptSame(mem, Live(C, msp));
      }
      dvsize := rsize;
      dv := r;
      VictimIs(C, r);
      ValidParts();
    }

    /** Hands out the binned chunk `p`, which has been unlinked, whole. */
    method GrantWhole(p: Word, s: Word, ghost nb: int)
      requires Core(mem, smallmap, treemap, top, topsize, C, last, bins, msp, hi) && DvOk(C, dv, dvsize) && p != dv
      requires p in C && !C[p].inuse && C[p].size == s && bins.free == FreeMap(C, {dv} + {p}) && nb <= s < nb + 16
      modifies `mem, `C
      ensures Valid()
      ensures Granted(old(Live(C, msp)), Live(C, msp), p, nb)
      ensures AllKept(old(mem), mem, old(Live(C, msp)))
    {
      hide *;
      CoreParts(mem, smallmap, treemap, top, topsize, C, last, bins, msp, hi);
      FreeMapIs(C, {dv} + {p}, p);
      TakenIs(C, msp, top, last, p);
      GrantedIs(Live(C, msp), p, s, nb);
      TakeWhole(p, s);
      ValidParts();
    }

    /** Hands out the front of the binned chunk `p`, which has been unlinked; the rest becomes the designated victim. */
    method GrantFront(p: Word, nb: Word, s: Word)
      requires Core(mem, smallmap, treemap, top, topsize, C, last, bins, msp, hi) && DvOk(C, dv, dvsize) && p != dv
      requires p in C && !C[p].inuse && C[p].size == s && bins.free == FreeMap(C, {dv} + {p})
      requires nb % 8 == 0 && 16 <= nb && 16 <= s - nb && dvsize < MIN_LARGE_SIZE
      modifies this
      ensures Valid()
      ensures Granted(old(Live(C, msp)), Live(C, msp), p, nb)
      ensures dv == p + nb && dvsize == s - nb
      ensures AllKept(old(mem), mem, old(Live(C, msp)))
    {
      hide *;
      CoreParts(mem, smallmap, treemap, top, topsize, C, last, bins, msp, hi);
      FreeMapIs(C, {dv} + {p}, p);
      NoChunkZero(C, msp, top, last);
      DvFacts(C, dv, dvsize);
      HeadReads(mem, C, msp, top, last, topsize, hi, p);
      HalvedIs(C, msp, top, last, p, nb);
      GrantedIs(Live(C, msp), p, nb, nb);
      SplitFree(p, nb, s);
      label split:
      ReplaceDv(p + nb, s - nb);
      GrantKept(old(mem), old@split(mem), mem, old(Live(C, msp)), Live(C, msp), p, nb);
    }

    /** Takes the large chunk `v` out of its treebin. */
    method DetachLarge(v: Word)
      requires Valid() && v in bins.free && bins.free[v] >= MIN_LARGE_SIZE
      modifies `mem, `treemap, `bins
      ensures Core(mem, smallmap, treemap, top, topsize, C, last, bins, msp, hi)
      ensures v != dv && v in C && !C[v].inuse && C[v].size == old(bins.free)[v] && bins.free == FreeMap(C, {dv} + {v})
      ensures AllKept(old(mem), mem, Live(C, msp))
    {
      hide *;
      ValidParts();
      CoreParts(mem, smallmap, treemap, top, topsize, C, last, bins, msp, hi);
      CoreSized(mem, C, msp, top, last, topsize, hi, bins.free);
      FreeMapIs(C, {dv}, v);
      FreeMapMinus(C, {dv}, v);
      UnlinkLargeChunk(v);
      SomeFreeMinus(C, old(bins.free), v);
      BinStep(old(mem), mem, smallmap, old(treemap), smallmap, treemap, top, topsize, C, last, old(bins), bins, msp,
          hi, old(bins.free));
    }

    /** Takes the first chunk out of the smallbin `i`. */
    method DetachSmall(i: nat) returns (p: Word)
      requires Valid() && i < 32 && Marked(smallmap, i)
      modifies `mem, `smallmap, `bins
      ensures Core(mem, smallmap, treemap, top, topsize, C, last, bins, msp, hi)
      ensures p in old(bins.free) && old(bins.free)[p] == 8 * i
      ensures p != dv && p in C && !C[p].inuse && C[p].size == 8 * i && bins.free == FreeMap(C, {dv} + {p})
      ensures AllKept(old(mem), mem, Live(C, msp))
    {
      hide *;
      ValidParts();
      CoreParts(mem, smallmap, treemap, top, topsize, C, last, bins, msp, hi);
      p := UnlinkFirstSmallChunk(i);
      FreeMapIs(C, {dv}, p);
      FreeMapMinus(C, {dv}, p);
      SomeFreeMinus(C, old(bins.free), p);
      BinStep(old(mem), mem, old(smallmap), treemap, smallmap, treemap, top, topsize, C, last, old(bins), bins, msp,
          hi, old(bins.free));
    }

    /** Files the rest of a large chunk whose front is handed out. */
    method GrantFrontAndBin(p: Word, nb: Word, s: Word)
      requires Core(mem, smallmap, treemap, top, topsize, C, last, bins, msp, hi) && DvOk(C, dv, dvsize) && p != dv
      requires p in C && !C[p].inuse && C[p].size == s && bins.free == FreeMap(C, {dv} + {p})
      requires nb % 8 == 0 && 16 <= nb && 16 <= s - nb
      modifies this
      ensures Valid()
      ensures Granted(old(Live(C, msp)), Live(C, msp), p, nb)
      ensures dv == old(dv) && dvsize == old(dvsize)
      ensures AllKept(old(mem), mem, old(Live(C, msp)))
    {
      hide *;
      CoreParts(mem, smallmap, treemap, top, topsize, C, last, bins, msp, hi);
      FreeMapIs(C, {dv} + {p}, p);
      NoChunkZero(C, msp, top, last);
      DvFacts(C, dv, dvsize);
      HeadReads(mem, C, msp, top, last, topsize, hi, p);
      HalvedIs(C, msp, top, last, p, nb);
      GrantedIs(Live(C, msp), p, nb, nb);
      SplitFree(p, nb, s);
      label split:
      FreeMapIs(C, {dv} + {p + nb}, p + nb);
      FreeMapPlus(C, {dv}, p + nb);
      InsertChunk(p + nb, s - nb);
      GrantKept(old(mem), old@split(mem), mem, old(Live(C, msp)), Live(C, msp), p, nb);
      ValidParts();
    }

    /**
      Allocates a large request from the best fitting chunk of the treebins, unless the designated victim fits as well.
     */
    method AllocLarge(nb: Word) returns (payload: Word)
      requires Valid() && LargeSize(nb)
      modifies this
      ensures Valid()
      ensures payload == 0 ==> unchanged(this)
      ensures payload == 0 ==> PassedOver(bins.free, nb, dvsize)
      ensures payload != 0 ==> payload >= 8 && Chosen(old(bins.free), old(dvsize), nb, payload - 8)
      ensures payload != 0 ==> Victim(dv, dvsize) == NextVictim(old(bins.free), old(dv), old(dvsize), nb, payload - 8)
      ensures payload != 0 ==> Granted(old(Live(C, msp)), Live(C, msp), payload - 8, nb)
      ensures AllKept(old(mem), mem, old(Live(C, msp)))
    {
      hide *;
      ValidParts();
      CoreParts(mem, smallmap, treemap, top, topsize, C, last, bins, msp, hi);
      CoreSized(mem, C, msp, top, last, topsize, hi, bins.free);
      LargeIs(nb);
      payload := 0;
      var v, rsize := FindLarge(nb);
      BestLarge(bins.free, nb, v);
      if v != 0 {
        FreeMapIs(C, {dv}, v);
        HeadReads(mem, C, msp, top, last, topsize, hi, v);
        VictimFit(dvsize, nb, rsize);
      }
      if v != 0 && rsize < Sub(dvsize, nb) {
        BestFits(bins.free, nb, v);
        ChosenIs(bins.free, dvsize, nb, v);
        NextVictimIs(bins.free, dv, dvsize, nb, v);
        DetachLarge(v);
        label detached:
        if rsize < 16 {
          GrantWhole(v, rsize + nb, nb);
        } else {
          GrantFrontAndBin(v, nb, rsize + nb);
        }
        DetachKept(old(mem), old@detached(mem), mem, old(Live(C, msp)));
        payload := v + 8;
      } else {
        PassedLarge(bins.free, nb, dvsize);
        KeptSame(mem, Live(C, msp));
      }
    }

    /** Allocates a small request from the smallest chunk of the treebins. */
    method AllocSmallFromTree(nb: Word) returns (payload: Word)
      requires Valid() && nb % 8 == 0 && 16 <= nb < MIN_LARGE_SIZE && treemap != 0 && dvsize < nb
      requires forall q :: q in bins.free && bins.free[q] < MIN_LARGE_SIZE ==> bins.free[q] < nb
      modifies this
      ensures Valid()
      ensures payload >= 8 && Chosen(old(bins.free), old(dvsize), nb, payload - 8)
      ensures Victim(dv, dvsize) == NextVictim(old(bins.free), old(dv), old(dvsize), nb, payload - 8)
      ensures Granted(old(Live(C, msp)), Live(C, msp), payload - 8, nb)
      ensures AllKept(old(mem), mem, old(Live(C, msp)))
    {
      hide *;
      ValidParts();
      CoreParts(mem, smallmap, treemap, top, topsize, C, last, bins, msp, hi);
      CoreSized(mem, C, msp, top, last, topsize, hi, bins.free);
      var v, rsize := FindSmallest(nb);
      FreeMapIs(C, {dv}, v);
      HeadReads(mem, C, msp, top, last, topsize, hi, v);
      BestOfAll(bins.free, nb, v);
      ChosenIs(bins.free, dvsize, nb, v);
      NextVictimIs(bins.free, dv, dvsize, nb, v);
      DetachLarge(v);
      label detached:
      if rsize < 16 {
        GrantWhole(v, rsize + nb, nb);
      } else {
        GrantFront(v, nb, rsize + nb);
      }
      DetachKept(old(mem), old@detached(mem), mem, old(Live(C, msp)));
      payload := v + 8;
    }

    /**
      Allocates a small request from the bins, if a smallbin has a remainderless fit or the designated victim is too
      small.
     */
    method AllocSmall(nb: Word) returns (payload: Word)
      requires Valid() && nb % 8 == 0 && 16 <= nb < MIN_LARGE_SIZE
      modifies this
      ensures Valid()
      ensures payload == 0 ==> unchanged(this)
      ensures payload == 0 ==> PassedOver(bins.free, nb, dvsize)
      ensures payload != 0 ==> payload >= 8 && Chosen(old(bins.free), old(dvsize), nb, payload - 8)
      ensures payload != 0 ==> Victim(dv, dvsize) == NextVictim(old(bins.free), old(dv), old(dvsize), nb, payload - 8)
      ensures payload != 0 ==> Granted(old(Live(C, msp)), Live(C, msp), payload - 8, nb)
      ensures AllKept(old(mem), mem, old(Live(C, msp)))
    {
      hide *;
      ValidParts();
      CoreParts(mem, smallmap, treemap, top, topsize, C, last, bins, msp, hi);
      var idx := nb / 8;
      SmallIndexOf(nb);
      ExactBits(smallmap, idx);
      NextBits(smallmap, idx);
      var smallbits := Pfx(smallmap, idx);
      payload := 0;
      if And(smallbits, 3) != 0 {
        payload := AllocExact(nb, idx + And(Not(smallbits), 1));
      } else if nb > dvsize {
        if smallbits != 0 {
          var leftbits := And(Shl(smallbits, idx), LeftBits(IdxBit(idx)));
          ghost var least := NextSmall(smallmap, idx, leftbits);
          payload := AllocNextSmall(nb, Bit2Idx(LeastBit(leftbits)));
        } else {
          NoSmall(mem, smallmap, treemap, bins, msp, hi, nb);
          if treemap != 0 {
            payload := AllocSmallFromTree(nb);
          } else {
            NoTree(mem, smallmap, treemap, bins, msp, hi);
            PassedAll(bins.free, nb, dvsize);
            KeptSame(mem, Live(C, msp));
          }
        }
      } else {
        NoExact(mem, smallmap, treemap, bins, msp, hi, nb);
        PreferredAll(bins.free, nb, dvsize);
        KeptSame(mem, Live(C, msp));
      }
    }

    /** Hands out the first chunk of the smallbin `i`, which leaves too little over to split. */
    method AllocExact(nb: Word, i: nat) returns (payload: Word)
      requires Valid() && nb % 8 == 0 && 16 <= nb < MIN_LARGE_SIZE && i < 32 && Marked(smallmap, i)
               && nb <= 8 * i < nb + 16
      requires forall j: nat :: nb / 8 <= j < i ==> !Marked(smallmap, j)
      modifies this
      ensures Valid()
      ensures payload >= 8 && Chosen(old(bins.free), old(dvsize), nb, payload - 8)
      ensures Victim(dv, dvsize) == NextVictim(old(bins.free), old(dv), old(dvsize), nb, payload - 8)
      ensures Granted(old(Live(C, msp)), Live(C, msp), payload - 8, nb)
      ensures AllKept(old(mem), mem, old(Live(C, msp)))
    {
      hide *;
      ValidParts();
      CoreParts(mem, smallmap, treemap, top, topsize, C, last, bins, msp, hi);
      SmallIndex(i);
      var p := DetachSmall(i);
      BestSmall(old(mem), old(smallmap), treemap, old(bins), msp, hi, nb, i, p);
      ChosenIs(old(bins.free), dvsize, nb, p);
      NextVictimIs(old(bins.free), dv, dvsize, nb, p);
      CoreParts(mem, smallmap, treemap, top, topsize, C, last, bins, msp, hi);
      HeadReads(mem, C, msp, top, last, topsize, hi, p);
      label detached:
      GrantWhole(p, 8 * i, nb);
      DetachKept(old(mem), old@detached(mem), mem, old(Live(C, msp)));
      payload := p + 8;
    }

    /** Hands out the front of the first chunk of the smallbin `i`; the rest becomes the designated victim. */
    method AllocNextSmall(nb: Word, i: nat) returns (payload: Word)
      requires Valid() && nb % 8 == 0 && 16 <= nb < MIN_LARGE_SIZE && i < 32 && Marked(smallmap, i) && nb + 16 <= 8 * i
               && dvsize < nb
      requires forall j: nat :: nb / 8 <= j < i ==> !Marked(smallmap, j)
      modifies this
      ensures Valid()
      ensures payload >= 8 && Chosen(old(bins.free), old(dvsize), nb, payload - 8)
      ensures Victim(dv, dvsize) == NextVictim(old(bins.free), old(dv), old(dvsize), nb, payload - 8)
      ensures Granted(old(Live(C, msp)), Live(C, msp), payload - 8, nb)
      ensures AllKept(old(mem), mem, old(Live(C, msp)))
    {
      hide *;
      ValidParts();
      CoreParts(mem, smallmap, treemap, top, topsize, C, last, bins, msp, hi);
      SmallIndex(i);
      var p := DetachSmall(i);
      BestSmall(old(mem), old(smallmap), treemap, old(bins), msp, hi, nb, i, p);
      ChosenIs(old(bins.free), dvsize, nb, p);
      NextVictimIs(old(bins.free), dv, dvsize, nb, p);
      CoreParts(mem, smallmap, treemap, top, topsize, C, last, bins, msp, hi);
      HeadReads(mem, C, msp, top, last, topsize, hi, p);
      label detached:
      GrantFront(p, nb, 8 * i);
      DetachKept(old(mem), old@detached(mem), mem, old(Live(C, msp)));
      payload := p + 8;
    }

    /** Allocates from the designated victim, splitting it if what is left over is a chunk. */
    method AllocVictim(nb: Word) returns (payload: Word)
      requires Valid() && nb % 8 == 0 && 16 <= nb <= dvsize
      modifies this
      ensures Valid()
      ensures payload == old(dv) + 8 && Granted(old(Live(C, msp)), Live(C, msp), old(dv), nb)
      ensures Victim(dv, dvsize) == NextVictim(old(bins.free), old(dv), old(dvsize), nb, payload - 8)
      ensures AllKept(old(mem), mem, old(Live(C, msp)))
    {
      hide *;
      ValidParts();
      CoreParts(mem, smallmap, treemap, top, topsize, C, last, bins, msp, hi);
      NoChunkZero(C, msp, top, last);
      DvFacts(C, dv, dvsize);
      FreeMapIs(C, {dv}, dv);
      HeadReads(mem, C, msp, top, last, topsize, hi, dv);
      NextVictimIs(bins.free, dv, dvsize, nb, dv);
      var rsize := dvsize - nb;
      var p := dv;
      if rsize >= 16 {
        HalvedIs(C, msp, top, last, p, nb);
        GrantedIs(Live(C, msp), p, nb, nb);
        assert {} + {p} == {p};
        assert {} + {p + nb} == {p + nb};
        SplitFree(p, nb, dvsize);
        assert FreeMap(C, {} + {p + nb}) == FreeMap(old(C), {} + {p});
        dv := p + nb;
        dvsize := rsize;
      } else {
        TakenIs(C, msp, top, last, p);
        GrantedIs(Live(C, msp), p, dvsize, nb);
        FreeMapSkip(C, {p}, 0);
        assert {0} + {p} == {p} + {0};
        assert FreeMap(Taken(C, p), {0}) == FreeMap(C, {0} + {p});
        NoDv(Taken(C, p));
        var dvs := dvsize;
        dvsize := 0;
        dv := 0;
        TakeWhole(p, dvs);
      }
      ValidParts();
      payload := p + 8;
    }

    /** Allocates from top. */
    method AllocTop(nb: Word) returns (payload: Word)
      requires Valid() && nb % 8 == 0 && 16 <= nb < topsize
      modifies this
      ensures Valid()
      ensures payload == old(top) + 8 && Granted(old(Live(C, msp)), Live(C, msp), old(top), nb)
      ensures dv == old(dv) && dvsize == old(dvsize)
      ensures AllKept(old(mem), mem, old(Live(C, msp)))
    {
      hide *;
      ValidParts();
      TopStep(mem, smallmap, treemap, top, topsize, C, last, bins, msp, hi, nb);
      CarveIs(C, msp, top, nb, last);
      GrantedIs(Live(C, msp), top, nb, nb);
      topsize := topsize - nb;
      var p := top;
      top := p + nb;
      mem := mem[top + 4 := topsize + 1];
      mem := mem[p + 4 := nb + 3];
      C := Carve(C, p, nb, last);
      last := p;
      ValidParts();
      payload := p + 8;
    }

    /** Allocates `bytes` bytes; the null pointer means that no room was found. */
    method Malloc(bytes: Word) returns (payload: Word)
      requires Valid()
      modifies this
      ensures Valid()
      ensures payload == 0 <==> bytes >= MAX_REQUEST || NothingFits(old(C), old(topsize), RequestSize(bytes))
      ensures payload == 0 ==> unchanged(this)
      ensures payload != 0 ==> payload >= 8 && Granted(old(Live(C, msp)), Live(C, msp), payload - 8, RequestSize(bytes))
      ensures payload != 0 ==>
                WellPlaced(old(bins.free), old(dv), old(dvsize), old(top), RequestSize(bytes), payload - 8)
      ensures payload != 0 ==>
                Victim(dv, dvsize)
                == NextVictim(old(bins.free), old(dv), old(dvsize), RequestSize(bytes), payload - 8)
      ensures AllKept(old(mem), mem, old(Live(C, msp)))
    {
      hide *;
      ValidParts();
      CoreParts(mem, smallmap, treemap, top, topsize, C, last, bins, msp, hi);
      NoChunkZero(C, msp, top, last);
      DvFacts(C, dv, dvsize);
      RequestIs(bytes);
      payload := 0;
      var nb;
      if bytes <= MAX_SMALL_REQUEST {
        nb := if bytes < MIN_REQUEST then MIN_CHUNK_SIZE else PadRequest(bytes);
        payload := AllocSmall(nb);
      } else if bytes >= MAX_REQUEST {
        nb := MAX_SIZE_T;
        TopBound(mem, top, topsize, hi);
        DomFacts2(mem, msp, hi);
        TooBig(C, msp, top, last, hi, dv, dvsize);
        KeptSame(mem, Live(C, msp));
      } else {
        nb := PadRequest(bytes);
        if treemap != 0 {
          payload := AllocLarge(nb);
        } else {
          NoTree(mem, smallmap, treemap, bins, msp, hi);
          LargeIs(nb);
          PassedAll(bins.free, nb, dvsize);
          KeptSame(mem, Live(C, msp));
        }
      }
      PlacedByBin(old(C), old(bins.free), old(dv), old(dvsize), old(top), old(topsize), nb, payload - 8);
      if payload != 0 {
        return;
      }
      PlacedElsewhere(C, bins.free, dv, dvsize, top, topsize, nb);
      TopNotChunk(C, msp, top, last);
      FreeMapIs(C, {dv}, top);
      NextVictimIs(bins.free, dv, dvsize, nb, top);
      if nb <= dvsize {
        payload := AllocVictim(nb);
      } else if nb < topsize {
        payload := AllocTop(nb);
      }
    }

    // ---------------------------------------------------------------- realloc

    /** Splits a block in two blocks. */
    method SplitBlock(p: Word, n: Word, s: Word)
      requires Valid() && p in C && p != msp && C[p].inuse && C[p].size == s && n % 8 == 0 && 16 <= n && 16 <= s - n
      modifies `mem, `C, `last
      ensures Valid() && 0 <= p + n < W
      ensures p + n in C && C[p + n].inuse && C[p + n].size == s - n && p + n !in old(C) && p + n != msp
      ensures Live(C, msp) == old(Live(C, msp))[p := n][p + n := s - n]
      ensures AllKept(old(mem), mem, old(Live(C, msp))[p := n])
    {
      hide *;
      ValidParts();
      CoreParts(mem, smallmap, treemap, top, topsize, C, last, bins, msp, hi);
      NextHead(mem, C, msp, top, last, topsize, hi, p);
      BlockHead(mem, C, msp, top, last, topsize, hi, p);
      RdAt(mem, p + 4);
      RdAt(mem, End(C, p) + 4);
      NoHeads(mem, p, s, End(C, p));
      PartStep(mem, mem, smallmap, treemap, top, topsize, C, last, bins, msp, hi, p, n);
      PartedIs(C, msp, top, last, p, n);
      mem := SplitInuseMem(mem, p, n, s);
      PartKept(old(mem), mem, C, msp, top, last, p, n);
      last := if End(C, p) == top then p + n else last;
      C := Parted(C, p, n);
      ValidParts();
    }

    /** Gives back what a block has beyond its first `n` bytes. */
    method ShrinkBlock(p: Word, n: Word, s: Word)
      requires Valid() && p in C && p != msp && C[p].inuse && C[p].size == s && n % 8 == 0 && 16 <= n && 16 <= s - n
      modifies this
      ensures Valid()
      ensures Live(C, msp) == old(Live(C, msp))[p := n]
      ensures AllKept(old(mem), mem, old(Live(C, msp))[p := n])
    {
      hide *;
      LiveIs(C, msp, p);
      SplitBlock(p, n, s);
      label split:
      LiveNot(old(C), msp, p + n);
      LivePart(old(Live(C, msp)), p, n, p + n, s - n);
      DisposeChunk(p + n, s - n);
      DetachKept(old(mem), old@split(mem), mem, Live(C, msp));
    }

    /** Grows the block before top into top. */
    method GrowIntoTop(p: Word, nb: Word, oldsize: Word)
      requires Valid() && p in C && p != msp && C[p].inuse && C[p].size == oldsize && End(C, p) == top
      requires nb % 8 == 0 && oldsize < nb < oldsize + topsize
      modifies this
      ensures Valid()
      ensures Live(C, msp) == old(Live(C, msp))[p := nb]
      ensures AllKept(old(mem), mem, old(Live(C, msp)))
      ensures dv == old(dv)
    {
      hide *;
      ValidParts();
      CoreParts(mem, smallmap, treemap, top, topsize, C, last, bins, msp, hi);
      CutLast(C, msp, top, last, p);
      GrowStep(mem, smallmap, treemap, top, topsize, C, last, bins, msp, hi, nb);
      GrownIs(C, msp, p, nb);
      var newtopsize := oldsize + topsize - nb;
      mem := GrowMem(mem, p, nb, newtopsize);
      top := p + nb;
      topsize := newtopsize;
      C := Grown(C, p, nb);
      ValidParts();
    }

    /** Grows a block over the whole free chunk after it, which is in no bin. */
    method JoinNext(p: Word, newsize: Word)
      requires Core(mem, smallmap, treemap, top, topsize, C, last, bins, msp, hi)
      requires p in C && p != msp && C[p].inuse && End(C, p) in C && !C[End(C, p)].inuse && End(C, p) !in bins.free
      requires newsize == C[p].size + C[End(C, p)].size
      modifies `mem, `C
      ensures Core(mem, smallmap, treemap, top, topsize, C, last, bins, msp, hi)
      ensures C == Joined(old(C), p)
      ensures AllKept(old(mem), mem, old(Live(C, msp)))
    {
      hide *;
      CoreParts(mem, smallmap, treemap, top, topsize, C, last, bins, msp, hi);
      JoinStep(mem, smallmap, treemap, top, topsize, C, last, bins, msp, hi, p);
      JoinedIs(C, msp, top, last, p);
      HeadReads(mem, C, msp, top, last, topsize, hi, p);
      mem := InuseMem(mem, p, newsize);
      JoinKept(old(mem), mem, C, msp, top, last, p, newsize, newsize);
      C := Joined(C, p);
    }

    /** Grows a block into the designated victim after it. */
    method GrowIntoVictim(p: Word, nb: Word, oldsize: Word)
      requires Valid() && p in C && p != msp && C[p].inuse && C[p].size == oldsize && End(C, p) == dv && dvsize != 0
      requires nb % 8 == 0 && oldsize < nb <= oldsize + dvsize
      modifies this
      ensures Valid()
      ensures Resized(old(Live(C, msp)), Live(C, msp), p, nb) && oldsize <= Live(C, msp)[p]
      ensures AllKept(old(mem), mem, old(Live(C, msp)))
      ensures dv == if oldsize + old(dvsize) - nb >= 16 then p + nb else 0
    {
      hide *;
      ValidParts();
      CoreParts(mem, smallmap, treemap, top, topsize, C, last, bins, msp, hi);
      NoChunkZero(C, msp, top, last);
      DvFacts(C, dv, dvsize);
      FreeMapIs(C, {dv}, dv);
      JoinedIs(C, msp, top, last, p);
      LiveIs(C, msp, p);
      SizeBound(mem, C, msp, top, last, topsize, hi, p);
      var dsize := oldsize + dvsize - nb;
      if dsize >= 16 {
        ReplaceStep(mem, smallmap, treemap, top, topsize, C, last, bins, msp, hi, p, nb, oldsize + dvsize);
        JoinedTop(C, p);
        JoinedOk(mem, smallmap, treemap, top, topsize, C, last, bins, msp, hi, p);
        TrimmedIs(Joined(C, p), msp, top, last, p, nb);
        ResizedIs(Live(C, msp), p, nb, nb);
        TwoUpdates(Live(C, msp), p, oldsize + dvsize, nb);
        assert {} + {dv} == {dv} && {} + {p + nb} == {p + nb};
        assert FreeMap(Joined(C, p), {}) == FreeMap(C, {} + {dv});
        assert FreeMap(Trimmed(Joined(C, p), p, nb), {} + {p + nb}) == FreeMap(Joined(C, p), {});
        mem := ReplaceMem(mem, p, nb, oldsize + dvsize);
        dvsize := dsize;
        dv := p + nb;
        C := Trimmed(Joined(C, p), p, nb);
      } else {
        NoDv(Joined(C, p));
        ResizedIs(Live(C, msp), p, oldsize + dvsize, nb);
        FreeMapSkip(C, {dv}, 0);
        assert {dv} + {0} == {0} + {dv};
        assert FreeMap(Joined(C, p), {0}) == FreeMap(C, {0} + {dv});
        JoinNext(p, oldsize + dvsize);
        dvsize := 0;
        dv := 0;
      }
      ValidParts();
    }

    /** Grows a block into the binned chunk after it, and gives back what it does not need. */
    method GrowIntoNext(p: Word, nb: Word, oldsize: Word, next: Word)
      requires Valid() && p in C && p != msp && C[p].inuse && C[p].size == oldsize && End(C, p) == next
      requires next in C && !C[next].inuse && next != dv && nb % 8 == 0 && oldsize < nb <= oldsize + C[next].size
      modifies this
      ensures Valid()
      ensures Resized(old(Live(C, msp)), Live(C, msp), p, nb) && oldsize <= Live(C, msp)[p]
      ensures AllKept(old(mem), mem, old(Live(C, msp)))
    {
      hide *;
      ValidParts();
      CoreParts(mem, smallmap, treemap, top, topsize, C, last, bins, msp, hi);
      FreeMapIs(C, {dv}, next);
      FreeMapMinus(C, {dv}, next);
      HeadReads(mem, C, msp, top, last, topsize, hi, next);
      JoinedIs(C, msp, top, last, p);
      LiveIs(C, msp, p);
      SizeBound(mem, C, msp, top, last, topsize, hi, p);
      BlockHead(mem, C, msp, top, last, topsize, hi, p);
      var nextsize := ChunkSize(mem[next + 4]);
      var rsize := oldsize + nextsize - nb;
      UnlinkChunk(next, nextsize);
      label unlinked:
      if rsize < 16 {
        ResizedIs(Live(C, msp), p, oldsize + nextsize, nb);
        JoinNext(p, oldsize + nextsize);
        ValidParts();
        DetachKept(old(mem), old@unlinked(mem), mem, old(Live(C, msp)));
      } else {
        ResizedIs(Live(C, msp), p, nb, nb);
        JoinAndSplit(p, nb, oldsize + nextsize);
        label split:
        DisposeChunk(p + nb, rsize);
        JoinedKept(old(mem), old@unlinked(mem), old@split(mem), mem, old(Live(C, msp)), Live(C, msp), p, nb);
      }
    }

    /**
      Grows a block over the free chunk after it, which is in no bin, and splits off a block behind the first `nb`
      bytes.
     */
    method JoinAndSplit(p: Word, nb: Word, s: Word)
      requires Core(mem, smallmap, treemap, top, topsize, C, last, bins, msp, hi) && DvOk(C, dv, dvsize)
      requires p in C && p != msp && C[p].inuse && End(C, p) in C && !C[End(C, p)].inuse && End(C, p) != dv
      requires bins.free == FreeMap(C, {dv} + {End(C, p)})
      requires s == C[p].size + C[End(C, p)].size && nb % 8 == 0 && C[p].size <= nb && 16 <= s - nb
      modifies `mem, `C
      ensures Valid() && 0 <= p + nb < W && p + nb !in old(Live(C, msp))
      ensures p + nb in C && C[p + nb].inuse && C[p + nb].size == s - nb && p + nb != msp
      ensures Live(C, msp) == old(Live(C, msp))[p := nb][p + nb := s - nb]
      ensures AllKept(old(mem), mem, old(Live(C, msp)))
    {
      hide *;
      CoreParts(mem, smallmap, treemap, top, topsize, C, last, bins, msp, hi);
      FreeMapIs(C, {dv} + {End(C, p)}, End(C, p));
      JoinStep(mem, smallmap, treemap, top, topsize, C, last, bins, msp, hi, p);
      JoinedIs(C, msp, top, last, p);
      JoinedOk(mem, smallmap, treemap, top, topsize, C, last, bins, msp, hi, p);
      ghost var m1, C1 := InuseMem(mem, p, s), Joined(C, p);
      SizeBound(mem, C, msp, top, last, topsize, hi, p);
      TwoUpdates(Live(C, msp), p, s, nb);
      JoinSource(mem, m1, msp, hi, p, s);
      BlockHead(mem, C, msp, top, last, topsize, hi, p);
      PartStep(m1, mem, smallmap, treemap, top, topsize, C1, last, bins, msp, hi, p, nb);
      PartedIs(C1, msp, top, last, p, nb);
      mem := SplitInuseMem(mem, p, nb, s);
      JoinKept(old(mem), mem, C, msp, top, last, p, nb, s);
      SplitNotLive(C, msp, top, last, p, nb);
      C := Parted(C1, p, nb);
      ValidParts();
    }

    /** Resizes the block at chunk `p` in place, if there is room. */
    method TryRealloc(p: Word, nb: Word) returns (ok: bool)
      requires Valid() && p in Live(C, msp) && nb % 8 == 0 && 16 <= nb
      modifies this
      ensures Valid()
      ensures p in old(C) && (ok <==> RoomInPlace(old(C), old(top), old(topsize), p, nb))
      ensures !ok ==> unchanged(this)
      ensures ok ==> Resized(old(Live(C, msp)), Live(C, msp), p, nb)
      ensures ok ==> AllKept(old(mem), mem, Common(old(Live(C, msp)), Live(C, msp), p))
    {
      hide *;
      ValidParts();
      CoreParts(mem, smallmap, treemap, top, topsize, C, last, bins, msp, hi);
      LiveIs(C, msp, p);
      NoChunkZero(C, msp, top, last);
      DvFacts(C, dv, dvsize);
      BlockHead(mem, C, msp, top, last, topsize, hi, p);
      NextReads(mem, C, msp, top, last, topsize, hi, p);
      HeadReads(mem, C, msp, top, last, topsize, hi, p);
      RoomIs(C, top, topsize, p, nb);
      TopBound(mem, top, topsize, hi);
      ghost var live := Live(C, msp);
      var oldsize := ChunkSize(mem[p + 4]);
      var next := p + oldsize;
      ok := false;
      if oldsize >= nb {
        var rsize := oldsize - nb;
        if rsize >= 16 {
          ResizedIs(live, p, nb, nb);
          ShrinkBlock(p, nb, oldsize);
        } else {
          ResizedIs(live, p, oldsize, nb);
          SameUpdate(live, p);
          KeptSame(mem, live);
        }
        ok := true;
      } else if next == top {
        if oldsize + topsize > nb {
          ResizedIs(live, p, nb, nb);
          GrowIntoTop(p, nb, oldsize);
          ok := true;
        }
      } else if next == dv {
        if oldsize + dvsize >= nb {
          GrowIntoVictim(p, nb, oldsize);
          ResizedIn(live, Live(C, msp), p, nb);
          CommonIs(live, Live(C, msp), p);
          ok := true;
        }
      } else if !CBit(mem[next + 4]) {
        HeadReads(mem, C, msp, top, last, topsize, hi, next);
        var nextsize := ChunkSize(mem[next + 4]);
        if oldsize + nextsize >= nb {
          GrowIntoNext(p, nb, oldsize, next);
          ResizedIn(live, Live(C, msp), p, nb);
          CommonIs(live, Live(C, msp), p);
          ok := true;
        }
      }
    }

    /** Copies `n` bytes, whole words, from the start of the block `p` to the start of the block `q`. */
    method CopyPayload(q: Word, p: Word, n: Word)
      requires Valid() && p in Live(C, msp) && q in Live(C, msp) && p != q && n % 4 == 0
      requires n <= Live(C, msp)[p] - 4 && n <= Live(C, msp)[q] - 4
      modifies `mem
      ensures Valid()
      ensures Copied(old(mem), mem, p + 8, q + 8, n)
      ensures AllKept(old(mem), mem, Live(C, msp) - {q})
    {
      hide *;
      ghost var live := Live(C, msp);
      KeptSame(mem, live - {q});
      NothingCopied(mem, p + 8, q + 8);
      var i := 0;
      while i < n
        invariant 0 <= i <= n && i % 4 == 0 && Valid()
        invariant Copied(old(mem), mem, p + 8, q + 8, i)
        invariant AllKept(old(mem), mem, live - {q})
      {
        ValidParts();
        CoreParts(mem, smallmap, treemap, top, topsize, C, last, bins, msp, hi);
        WordStep(i, n);
        PayloadWord(mem, C, msp, top, last, topsize, hi, p, i);
        PayloadWord(mem, C, msp, top, last, topsize, hi, q, i);
        WriteStep(mem, smallmap, treemap, top, topsize, C, last, bins, msp, hi, q, q + 8 + i, mem[p + 8 + i]);
        ghost var m1 := mem;
        mem := mem[q + 8 + i := mem[p + 8 + i]];
        CopyStep(old(mem), m1, mem, live - {q}, p, live[p], p + 8, q + 8, i);
        DetachKept(old(mem), m1, mem, live - {q});
        i := i + 4;
        ValidParts();
      }
    }

    /** Resizes a block, in place or by moving it; a null pointer stands for no block yet. */
    method Realloc(oldmem: Word, bytes: Word) returns (payload: Word)
      requires Valid() && (oldmem != 0 ==> oldmem - 8 in Live(C, msp))
      modifies this
      ensures Valid()
      ensures payload == 0 ==> unchanged(this)
      ensures oldmem == 0 ==>
                (payload == 0 <==> bytes >= MAX_REQUEST || NothingFits(old(C), old(topsize), RequestSize(bytes)))
      ensures oldmem != 0 ==> oldmem - 8 in old(C)
      ensures oldmem != 0 ==>
                (payload == 0 <==>
                   (bytes >= MAX_REQUEST
                    || (NothingFits(old(C), old(topsize), RequestSize(bytes))
                        && !RoomInPlace(old(C), old(top), old(topsize), oldmem - 8, RequestSize(bytes)))))
      ensures oldmem != 0 && bytes < MAX_REQUEST ==>
                (payload == oldmem <==> RoomInPlace(old(C), old(top), old(topsize), oldmem - 8, RequestSize(bytes)))
      ensures payload != 0 ==> payload >= 8
      ensures payload != 0 && oldmem == 0 ==>
                && Granted(old(Live(C, msp)), Live(C, msp), payload - 8, RequestSize(bytes))
                && AllKept(old(mem), mem, old(Live(C, msp)))
      ensures payload != 0 && oldmem != 0 ==>
                && Moved(old(Live(C, msp)), Live(C, msp), oldmem - 8, payload - 8, RequestSize(bytes))
                && Copied(old(mem), mem, oldmem, payload, Min(old(Live(C, msp))[oldmem - 8],
                   Live(C, msp)[payload - 8]) - 4)
                && AllKept(old(mem), mem, old(Live(C, msp)) - {oldmem - 8})
    {
      hide *;
      RequestIs(bytes);
      if oldmem == 0 {
        payload := Malloc(bytes);
      } else if bytes >= MAX_REQUEST {
        LiveIs(C, msp, oldmem - 8);
        payload := 0;
      } else {
        var nb := RequestSize(bytes);
        var p := oldmem - 8;
        LiveIs(C, msp, p);
        RoomIs(C, top, topsize, p, nb);
        ValidParts();
        CoreParts(mem, smallmap, treemap, top, topsize, C, last, bins, msp, hi);
        BlockHead(mem, C, msp, top, last, topsize, hi, p);
        var ok := TryRealloc(p, nb);
        if ok {
          ResizedMoved(old(mem), mem, old(Live(C, msp)), Live(C, msp), p, nb);
          payload := oldmem;
        } else {
          payload := Malloc(bytes);
          if payload != 0 {
            GrantedElsewhere(old(Live(C, msp)), Live(C, msp), p, payload - 8, nb);
            MoveBlock(p, payload - 8, bytes, old(Live(C, msp)), old(mem));
          }
        }
      }
    }

    /** Copies the block `p` to the new block `q` and frees it. */
    method MoveBlock(p: Word, q: Word, bytes: Word, ghost live: map<int, int>, ghost m: Mem)
      requires Valid() && bytes < MAX_REQUEST && p in live && live[p] < RequestSize(bytes)
      requires Granted(live, Live(C, msp), q, RequestSize(bytes)) && AllKept(m, mem, live)
      modifies this
      ensures Valid()
      ensures Moved(live, Live(C, msp), p, q, RequestSize(bytes))
      ensures Copied(m, mem, p + 8, q + 8, Min(live[p], Live(C, msp)[q]) - 4)
      ensures AllKept(m, mem, live - {p})
    {
      hide *;
      ghost var live1, m1 := Live(C, msp), mem;
      ValidParts();
      CoreParts(mem, smallmap, treemap, top, topsize, C, last, bins, msp, hi);
      GrantedMoved(live, live1, live1 - {p}, p, q, RequestSize(bytes));
      LiveIs(C, msp, p);
      BlockHead(mem, C, msp, top, last, topsize, hi, p);
      CopyLength(bytes, live[p]);
      OverheadIs();
      MinIs(live[p], live1[q]);
      var oc := ChunkSize(mem[p + 4]) - CHUNK_OVERHEAD;
      CopyPayload(q, p, if oc < bytes then oc else bytes);
      ghost var m2 := mem;
      CopiedFrom(m, m1, m2, live, p, q + 8, oc);
      HeadReads(m1, C, msp, top, last, topsize, hi, p);
      Free(p + 8);
      CopiedKept(m, m2, mem, p + 8, Live(C, msp), q, oc);
      MovedKept(m, m1, m2, mem, live, live1, Live(C, msp), p, q);
    }

    // ---------------------------------------------------------------- memalign

    /** Gives back the first `n` bytes of a block; the rest is a block of its own. */
    method GiveLeader(p: Word, n: Word, s: Word)
      requires Valid() && p in C && p != msp && C[p].inuse && C[p].size == s && n % 8 == 0 && 16 <= n && 16 <= s - n
      modifies this
      ensures Valid() && 0 <= p + n < W && p + n !in old(Live(C, msp))
      ensures Live(C, msp) == (old(Live(C, msp)) - {p})[p + n := s - n]
      ensures AllKept(old(mem), mem, old(Live(C, msp)) - {p})
    {
      hide *;
      ghost var live := Live(C, msp);
      ValidParts();
      CoreParts(mem, smallmap, treemap, top, topsize, C, last, bins, msp, hi);
      NextHead(mem, C, msp, top, last, topsize, hi, p);
      BlockHead(mem, C, msp, top, last, topsize, hi, p);
      LiveIs(C, msp, p);
      RdAt(mem, p + 4);
      RdAt(mem, End(C, p) + 4);
      NoHeads(mem, p, s, End(C, p));
      PartStep(mem, mem, smallmap, treemap, top, topsize, C, last, bins, msp, hi, p, n);
      PartedIs(C, msp, top, last, p, n);
      LeadIs(mem, p, n, s);
      LiveNot(C, msp, p + n);
      LiveLead(live, p, n, p + n, s - n);
      mem := LeadMem(mem, p, n, s);
      PartKept(old(mem), mem, C, msp, top, last, p, n);
      KeptMinus(old(mem), mem, live[p := n], p);
      last := if End(C, p) == top then p + n else last;
      C := Parted(C, p, n);
      ValidParts();
      label split:
      DisposeChunk(p, n);
      KeptMinus(old@split(mem), mem, Live(C, msp), p + n);
      LiveBack(live - {p}, p + n, s - n);
      DetachKept(old(mem), old@split(mem), mem, live - {p});
    }

    /** Moves the start of the block `p` up to a multiple of the alignment 2^k. */
    method AlignBlock(p: Word, alignment: Word, nb: Word, ghost k: nat, ghost live: map<int, int>) returns (newp: Word)
      requires Valid() && 4 <= k <= 31 && alignment == Pow2(k) && 16 <= nb && nb % 8 == 0
      requires Granted(live, Live(C, msp), p, nb + alignment + 16) && (p + 8) % alignment != 0
      modifies this
      ensures Valid() && newp + 8 < W && (newp + 8) % alignment == 0
      ensures newp !in live && newp in Live(C, msp) && nb <= Live(C, msp)[newp]
              && Live(C, msp) == live[newp := Live(C, msp)[newp]]
      ensures AllKept(old(mem), mem, live)
    {
      hide *;
      ghost var live1 := Live(C, msp);
      GrantedParts(live, live1, p, nb + alignment + 16);
      ValidParts();
      CoreParts(mem, smallmap, treemap, top, topsize, C, last, bins, msp, hi);
      LiveIs(C, msp, p);
      BlockHead(mem, C, msp, top, last, topsize, hi, p);
      HeadReads(mem, C, msp, top, last, topsize, hi, p);
      DomFacts2(mem, msp, hi);
      WordIs();
      PowWord(k);
      AlignUp(p + 8, k);
      NegIs(alignment);
      var br := And(p + 8 + alignment - 1, Neg(alignment)) - 8;
      var pos := if br - p >= 16 then br else br + alignment;
      newp := pos;
      var leadsize := pos - p;
      Leads(p, br, alignment);
      EitherUp(br + 8, alignment, newp + 8);
      var newsize := ChunkSize(mem[p + 4]) - leadsize;
      GiveLeader(p, leadsize, newsize + leadsize);
      GrantedLead(live, live1, p, nb + alignment + 16, newp, newsize);
    }

    /** Allocates `bytes` bytes at a multiple of the alignment, rounded up to a power of two 2^k. */
    method AlignedAlloc(alignment: Word, bytes: Word) returns (payload: Word, ghost k: nat)
      requires Valid() && alignment <= 0x8000_0000
      modifies this
      ensures Valid()
      ensures 4 <= k <= 31 && alignment <= Pow2(k) && forall j: nat :: 4 <= j && alignment <= Pow2(j) ==>
                Pow2(k) <= Pow2(j)
      ensures payload == 0 <==>
                (bytes >= MAX_REQUEST - Pow2(k)
                 || RequestSize(bytes) + Pow2(k) + 12 >= MAX_REQUEST
                 || NothingFits(old(C), old(topsize), RequestSize(bytes) + Pow2(k) + 16))
      ensures payload == 0 ==> unchanged(this)
      ensures payload != 0 ==> payload >= 8 && payload % Pow2(k) == 0
      ensures payload != 0 ==> GrantedAligned(old(Live(C, msp)), Live(C, msp), payload - 8, RequestSize(bytes))
      ensures AllKept(old(mem), mem, old(Live(C, msp)))
    {
      hide *;
      ghost var live := Live(C, msp);
      var a;
      a, k := RoundAlignment(alignment);
      PowWord(k);
      OverheadIs();
      payload := 0;
      if bytes >= MAX_REQUEST - a {
        KeptSame(mem, live);
      } else {
        var nb := RequestSize(bytes);
        AlignedRequest(bytes, a, nb + a + MIN_CHUNK_SIZE - CHUNK_OVERHEAD);
        var req := nb + a + MIN_CHUNK_SIZE - CHUNK_OVERHEAD;
        payload := Malloc(req);
        if payload != 0 {
          ghost var m1 := mem;
          var p := payload - 8;
          GrantedParts(live, Live(C, msp), p, nb + a + 16);
          AlignTest(payload, k);
          KeptSame(mem, live);
          if And(payload, a - 1) != 0 {
            p := AlignBlock(p, a, nb, k, live);
          }
          ghost var m2 := mem;
          DetachKept(old(mem), m1, m2, live);
          TrimAligned(p, nb, live);
          DetachKept(old(mem), m2, mem, live);
          payload := p + 8;
        }
      }
    }

    /** Gives back spare room at the end of the block `p`. */
    method TrimAligned(p: Word, nb: Word, ghost live: map<int, int>)
      requires Valid() && 16 <= nb && nb % 8 == 0
      requires p !in live && p in Live(C, msp) && nb <= Live(C, msp)[p] && Live(C, msp) == live[p := Live(C, msp)[p]]
      modifies this
      ensures Valid()
      ensures GrantedAligned(live, Live(C, msp), p, nb)
      ensures AllKept(old(mem), mem, live)
    {
      hide *;
      ValidParts();
      CoreParts(mem, smallmap, treemap, top, topsize, C, last, bins, msp, hi);
      LiveIs(C, msp, p);
      BlockHead(mem, C, msp, top, last, topsize, hi, p);
      var size := ChunkSize(mem[p + 4]);
      if size > nb + 16 {
        AlignedIs(live, p, nb, nb);
        TwoUpdates(live, p, size, nb);
        ShrinkBlock(p, nb, size);
        KeptMinus(old(mem), mem, live[p := nb], p);
        LiveBack(live, p, nb);
      } else {
        AlignedIs(live, p, size, nb);
        KeptSame(mem, live);
      }
    }

    /** Allocates at an alignment; the alignment every block has is left to `Malloc`. */
    method Memalign(alignment: Word, bytes: Word) returns (payload: Word, ghost k: nat)
      requires Valid() && alignment <= 0x8000_0000
      modifies this
      ensures Valid()
      ensures alignment > 8 ==>
                4 <= k <= 31 && alignment <= Pow2(k) && forall j: nat :: 4 <= j && alignment <= Pow2(j) ==>
                      Pow2(k) <= Pow2(j)
      ensures payload == 0 <==>
                if alignment <= 8 then bytes >= MAX_REQUEST || NothingFits(old(C), old(topsize), RequestSize(bytes))
                else || bytes >= MAX_REQUEST - Pow2(k)
                     || RequestSize(bytes) + Pow2(k) + 12 >= MAX_REQUEST
                     || NothingFits(old(C), old(topsize), RequestSize(bytes) + Pow2(k) + 16)
      ensures payload == 0 ==> unchanged(this)
      ensures payload != 0 ==>
                payload >= 8 && GrantedAligned(old(Live(C, msp)), Live(C, msp), payload - 8, RequestSize(bytes))
      ensures payload != 0 && alignment > 8 ==> payload % Pow2(k) == 0
      ensures AllKept(old(mem), mem, old(Live(C, msp)))
    {
      hide *;
      k := 3;
      if alignment <= 8 {
        payload := Malloc(bytes);
        if payload != 0 {
          OverheadIs();
          GrantedParts(old(Live(C, msp)), Live(C, msp), payload - 8, RequestSize(bytes));
          AlignedIs(old(Live(C, msp)), payload - 8, Live(C, msp)[payload - 8], RequestSize(bytes));
        }
      } else {
        payload, k := AlignedAlloc(alignment, bytes);
      }
    }

    // ---------------------------------------------------------------- runs

    /** Frees blocks one after the other, in any order; when they were all there were, the space is as it was made. */
    method FreeAll(order: seq<Word>)
      requires Valid() && Pointers(Live(C, msp), order)
      modifies this
      ensures Valid()
      ensures Remaining(old(Live(C, msp)), Live(C, msp), order)
      ensures AllNamed(old(Live(C, msp)), order) ==> IsFresh()
    {
      hide *;
      ghost var live := Live(C, msp);
      AllRemain(live, order);
      var i := 0;
      while i < |order|
        invariant 0 <= i <= |order| && Valid()
        invariant Remaining(live, Live(C, msp), order[..i])
      {
        ghost var before := Live(C, msp);
        NotYet(live, before, order, i);
        Free(order[i]);
        OneLess(live, before, Live(C, msp), order, i);
        i := i + 1;
      }
      assert order[..i] == order;
      if AllNamed(live, order) {
        NoneRemain(live, Live(C, msp), order);
        EmptyIsFresh();
      }
    }

    /**
      One step of a program: a request, or a write to a block.  The program knows its blocks by their pointers,
      `owned`, and what concerns no block of its own is skipped.  A block `p` the step does not concern stays as it is.
     */
    method Step(op: Op, owned: set<int>, ghost p: int) returns (owned': set<int>)
      requires Valid() && Owns(owned, Live(C, msp)) && !Touches(op, p)
      modifies this
      ensures Valid() && Owns(owned', Live(C, msp))
      ensures Stays(old(mem), mem, old(Live(C, msp)), Live(C, msp), p)
    {
      hide *;
      ghost var live := Live(C, msp);
      NothingMoves(mem, live, p);
      TouchIs(op, p);
      owned' := owned;
      match op
      case DoMalloc(bytes) =>
        var payload := Malloc(bytes);
        if payload != 0 {
          Granting(old(mem), mem, owned, live, Live(C, msp), payload - 8, RequestSize(bytes), p);
          owned' := owned + {payload};
        }
      case DoFree(payload) =>
        if payload in owned {
          OwnsIs(owned, live, payload);
          BlockPointer(payload);
          Free(payload);
          Freeing(old(mem), mem, owned, live, payload, p);
          owned' := owned - {payload};
        }
      case DoRealloc(payload, bytes) =>
        if payload in owned {
          OwnsIs(owned, live, payload);
          BlockPointer(payload);
          var moved := Realloc(payload, bytes);
          if moved != 0 {
            Moving(old(mem), mem, owned, live, Live(C, msp), payload - 8, moved - 8, RequestSize(bytes), p);
            owned' := owned - {payload} + {moved};
          }
        }
      case DoMemalign(alignment, bytes) =>
        if alignment <= 0x8000_0000 {
          var payload;
          ghost var k;
          payload, k := Memalign(alignment, bytes);
          if payload != 0 {
            Aligning(old(mem), mem, owned, live, Live(C, msp), payload - 8, RequestSize(bytes), p);
            owned' := owned + {payload};
          }
        }
      case DoStore(payload, a, v) =>
        if payload in owned {
          OwnsIs(owned, live, payload);
          BlockPointer(payload);
          ValidParts();
          CoreParts(mem, smallmap, treemap, top, topsize, C, last, bins, msp, hi);
          LiveIs(C, msp, payload - 8);
          HeadReads(mem, C, msp, top, last, topsize, hi, payload - 8);
          if payload <= a < payload + ChunkSize(mem[payload - 4]) - 4 && a % 4 == 0 {
            Store(payload - 8, a, v);
            Storing(old(mem), mem, live, payload - 8, p);
          }
        }
    }

    /** Live blocks lie above the state chunk. */
    lemma BlockPointer(payload: Word)
      requires Valid() && payload - 8 in Live(C, msp)
      ensures payload >= 8
    {
      hide *;
      LiveBlocks();
      ValidParts();
      CoreParts(mem, smallmap, treemap, top, topsize, C, last, bins, msp, hi);
      DomFacts2(mem, msp, hi);
      StateSize();
    }

    /** A whole run.  A block that no step concerns is live at the end, as long as ever, and holds what it held. */
    method Run(ops: seq<Op>, owned: set<int>, ghost p: int) returns (owned': set<int>)
      requires Valid() && Owns(owned, Live(C, msp)) && forall i :: 0 <= i < |ops| ==> !Touches(ops[i], p)
      modifies this
      ensures Valid() && Owns(owned', Live(C, msp))
      ensures Stays(old(mem), mem, old(Live(C, msp)), Live(C, msp), p)
    {
      hide *;
      owned' := owned;
      ghost var live := Live(C, msp);
      NothingMoves(mem, live, p);
      var i := 0;
      while i < |ops|
        invariant 0 <= i <= |ops| && Valid() && Owns(owned', Live(C, msp))
        invariant Stays(old(mem), mem, live, Live(C, msp), p)
      {
        ghost var m1, live1 := mem, Live(C, msp);
        owned' := Step(ops[i], owned', p);
        StaysTrans(old(mem), m1, mem, live, live1, Live(C, msp), p);
        i := i + 1;
      }
    }
  }
}
