/** Choosing a smallbin by its map. */
module HeapSmallFit {
  import opened Words
  import opened HeapWords
  import opened HeapBinMaps
  import opened HeapTreeIndex
  import opened HeapTries
  import opened HeapBins
  import opened HeapLargeBins
  import opened HeapWalk
  import opened HeapMacros
  import opened HeapAlloc
  import opened HeapFit

  lemma BitMarked(x: int, i: nat)
    ensures Bit(x, i) == 1 <==> Marked(x, i)
  {
    ShrMarked(x, i, 0);
  }

  lemma HighUnmarked(x: Word, j: nat)
    requires Marked(x, j)
    ensures j < 32
  {
    if j >= 32 {
      Pow32();
      PowOrder(32, j);
      PfxZero(x, j);
      BitMarked(x, j);
    }
  }

  lemma AndOne(x: int)
    requires x >= 0
    ensures And(x, 1) == x % 2
  {
    AndZero(x / 2);
  }

  lemma AndThree(x: int)
    requires x >= 0
    ensures And(x, 3) != 0 <==> x % 2 == 1 || x / 2 % 2 == 1
  {
    AndOne(x / 2);
  }

  lemma NotParity(x: Word)
    ensures Not(x) >= 0 && Not(x) % 2 == 1 - x % 2
  {
  }

  lemma MarkedLow(x: int)
    ensures Marked(x, 0) <==> x % 2 == 1
    ensures Marked(x, 1) <==> x / 2 % 2 == 1
  {
    assert Marked(x, 1) == Marked(x / 2, 0);
  }

  /** The two lowest bits of a map. */
  lemma LowTwo(x: Word)
    ensures And(x, 3) != 0 <==> Marked(x, 0) || Marked(x, 1)
    ensures 0 <= Not(x) && And(Not(x), 1) == if Marked(x, 0) then 0 else 1
  {
    hide *;
    AndThree(x);
    NotParity(x);
    AndOne(Not(x));
    MarkedLow(x);
  }

  lemma PfxWord(x: Word, n: nat)
    ensures 0 <= Pfx(x, n) < W
  {
    PfxMono(0, x, n);
    ZeroPfx(n);
    PfxSmaller(x, n);
  }

  lemma {:induction false} ZeroPfx(n: nat)
    ensures Pfx(0, n) == 0
  {
    if n > 0 {
      ZeroPfx(n - 1);
    }
  }

  lemma {:induction false} PfxSmaller(x: int, n: nat)
    requires x >= 0
    ensures 0 <= Pfx(x, n) <= x
  {
    if n > 0 {
      PfxSmaller(x, n - 1);
    }
  }

  /** The map shifted down by `idx`, as the search for a remainderless fit reads it. */
  lemma ExactBits(smallmap: Word, idx: nat)
    requires idx < 32
    ensures 0 <= Pfx(smallmap, idx) < W
    ensures And(Pfx(smallmap, idx), 3) != 0 <==> Marked(smallmap, idx) || Marked(smallmap, idx + 1)
    ensures Not(Pfx(smallmap, idx)) >= 0
    ensures var i := idx + And(Not(Pfx(smallmap, idx)), 1); i == if Marked(smallmap, idx) then idx else idx + 1
    ensures Marked(smallmap, idx + 1) ==> idx + 1 < 32
  {
    PfxWord(smallmap, idx);
    LowTwo(Pfx(smallmap, idx));
    ShrMarked(smallmap, idx, 0);
    ShrMarked(smallmap, idx, 1);
    if Marked(smallmap, idx + 1) {
      HighUnmarked(smallmap, idx + 1);
    }
  }

  /** Shifted down and up again, the map keeps its marks from `idx` on. */
  lemma ShiftMarked(smallmap: Word, idx: nat, j: nat)
    requires idx < j < 32
    ensures 0 <= Pfx(smallmap, idx) < W
    ensures Marked(Shl(Pfx(smallmap, idx), idx), j) <==> Marked(smallmap, j)
  {
    PfxWord(smallmap, idx);
    ShlBit(Pfx(smallmap, idx), idx, j);
    BitMarked(Shl(Pfx(smallmap, idx), idx), j);
    BitMarked(Pfx(smallmap, idx), j - idx);
    ShrMarked(smallmap, idx, j - idx);
  }

  lemma NextBits(smallmap: Word, idx: nat)
    requires idx < 32
    ensures 0 <= Pfx(smallmap, idx) < W && 0 <= IdxBit(idx) < W && LeftBits(IdxBit(idx)) >= 0
    ensures 0 <= And(Shl(Pfx(smallmap, idx), idx), LeftBits(IdxBit(idx))) < W
    ensures forall j: nat :: j < 32 ==>
              (Marked(And(Shl(Pfx(smallmap, idx), idx), LeftBits(IdxBit(idx))), j) <==> idx < j && Marked(smallmap, j))
  {
    PfxWord(smallmap, idx);
    var x := Shl(Pfx(smallmap, idx), idx);
    LeftMarkedAll(x, idx);
    forall j: nat | j < 32 && idx < j
      ensures Marked(x, j) <==> Marked(smallmap, j)
    {
      ShiftMarked(smallmap, idx, j);
    }
  }

  /** When neither bin `idx` nor the next one is marked, the search finds the first mark after them. */
  lemma NextSmall(smallmap: Word, idx: nat, leftbits: Word) returns (i: nat)
    requires idx < 32 && 0 <= Pfx(smallmap, idx) < W && Pfx(smallmap, idx) != 0 && !Marked(smallmap, idx)
             && !Marked(smallmap, idx + 1)
    requires forall j: nat :: j < 32 ==> (Marked(leftbits, j) <==> idx < j && Marked(smallmap, j))
    ensures leftbits != 0 && Bit2Idx(LeastBit(leftbits)) == i && idx + 2 <= i < 32 && Marked(smallmap, i)
    ensures forall j: nat :: idx <= j < i ==> !Marked(smallmap, j)
  {
    var k := LeastMarked(Pfx(smallmap, idx));
    ShrMarked(smallmap, idx, k);
    HighUnmarked(smallmap, k + idx);
    assert Marked(leftbits, k + idx);
    if leftbits == 0 {
      ZeroMarked(k + idx);
    }
    i := LeastMarked(leftbits);
    forall j: nat | idx <= j < i
      ensures !Marked(smallmap, j)
    {
      assert j < 32 && !Marked(leftbits, j);
    }
  }

  // ---------------------------------------------------------------- marks and chunks

  /** A binned small chunk marks its bin. */
  lemma ChunkMarks(smallmap: Word, treemap: Word, b: Bins, q: int)
    requires MapsOk(smallmap, treemap, b) && Members(b) && q in b.free && 0 <= b.free[q] < MIN_LARGE_SIZE
             && b.free[q] % 8 == 0
    ensures b.free[q] / 8 < 32 && Marked(smallmap, b.free[q] / 8) && 8 * (b.free[q] / 8) == b.free[q]
  {
    var s := b.free[q];
    MapsAt(smallmap, treemap, b, s / 8);
    assert 8 * (s / 8) == s;
    assert s in b.rings;
  }

  lemma SizeFacts(b: Bins, msp: int, hi: int, q: int)
    requires Places(b.free, msp, hi) && q in b.free
    ensures b.free[q] >= 16 && b.free[q] % 8 == 0
  {
    assert PlaceOk(q, b.free[q], msp, hi);
  }

  lemma MarksAll(m: Mem, smallmap: Word, treemap: Word, b: Bins, msp: int, hi: int)
    requires BinsOk(m, smallmap, treemap, b, msp, hi)
    ensures forall q :: q in b.free && b.free[q] < MIN_LARGE_SIZE ==>
              b.free[q] >= 0 && b.free[q] / 8 < 32 && Marked(smallmap, b.free[q] / 8)
                  && 8 * (b.free[q] / 8) == b.free[q]
  {
    hide *;
    BinsParts(m, smallmap, treemap, b, msp, hi);
    forall q | q in b.free && b.free[q] < MIN_LARGE_SIZE
      ensures b.free[q] >= 0 && b.free[q] / 8 < 32 && Marked(smallmap, b.free[q] / 8)
              && 8 * (b.free[q] / 8) == b.free[q]
    {
      SizeFacts(b, msp, hi, q);
      ChunkMarks(smallmap, treemap, b, q);
    }
  }

  /** The first marked bin at or after that of `nb` holds the smallest binned chunks that fit. */
  lemma BestSmall(m: Mem, smallmap: Word, treemap: Word, b: Bins, msp: int, hi: int, nb: int, i: nat, p: int)
    requires BinsOk(m, smallmap, treemap, b, msp, hi) && 16 <= nb < MIN_LARGE_SIZE && nb <= 8 * i < MIN_LARGE_SIZE
    requires p in b.free && b.free[p] == 8 * i && nb % 8 == 0
    requires forall j: nat :: nb / 8 <= j < i ==> !Marked(smallmap, j)
    ensures BestBinned(b.free, nb, p)
  {
    hide BinsOk;
    hide Marked;
    MarksAll(m, smallmap, treemap, b, msp, hi);
    forall q | q in b.free && b.free[q] >= nb
      ensures 8 * i <= b.free[q]
    {
      var j: nat := b.free[q] / 8;
      assert nb / 8 <= j;
    }
  }

  /** No smallbin holds a remainderless fit. */
  lemma NoExact(m: Mem, smallmap: Word, treemap: Word, b: Bins, msp: int, hi: int, nb: int)
    requires BinsOk(m, smallmap, treemap, b, msp, hi) && 16 <= nb < MIN_LARGE_SIZE && nb % 8 == 0
    requires !Marked(smallmap, nb / 8) && !Marked(smallmap, nb / 8 + 1)
    ensures forall q :: q in b.free && b.free[q] < MIN_LARGE_SIZE ==> b.free[q] < nb || nb + 16 <= b.free[q]
  {
    hide BinsOk;
    hide Marked;
    MarksAll(m, smallmap, treemap, b, msp, hi);
    forall q | q in b.free && nb <= b.free[q] < nb + 16 && b.free[q] < MIN_LARGE_SIZE
      ensures false
    {
    }
  }

  /** Nothing is marked from `n` on. */
  lemma ZeroShift(x: int, n: nat)
    requires Pfx(x, n) == 0
    ensures forall j: nat :: Marked(x, j) ==> j < n
  {
    forall j: nat | n <= j
      ensures !Marked(x, j)
    {
      ShrMarked(x, n, j - n);
      ZeroMarked(j - n);
    }
  }

  lemma NoSmall(m: Mem, smallmap: Word, treemap: Word, b: Bins, msp: int, hi: int, nb: int)
    requires BinsOk(m, smallmap, treemap, b, msp, hi) && 16 <= nb < MIN_LARGE_SIZE && nb % 8 == 0
             && Pfx(smallmap, nb / 8) == 0
    ensures forall q :: q in b.free && b.free[q] < MIN_LARGE_SIZE ==> b.free[q] < nb
  {
    hide BinsOk;
    hide Marked;
    MarksAll(m, smallmap, treemap, b, msp, hi);
    ZeroShift(smallmap, nb / 8);
  }

  /** With no treebin marked, there is no large chunk. */
  lemma NoTree(m: Mem, smallmap: Word, treemap: Word, b: Bins, msp: int, hi: int)
    requires BinsOk(m, smallmap, treemap, b, msp, hi) && treemap == 0
    ensures forall q :: q in b.free ==> b.free[q] < MIN_LARGE_SIZE
  {
    hide *;
    BinsParts(m, smallmap, treemap, b, msp, hi);
    TrieMemParts(m, b, msp);
    forall q | q in b.free
      ensures b.free[q] < MIN_LARGE_SIZE
    {
      if b.free[q] >= MIN_LARGE_SIZE {
        FreeFacts(b, msp, hi, q);
        TrieHas(b, b.free[q]);
        RootHas(b.trie, b.roots, b.free[q]);
        MapsAt(smallmap, treemap, b, Idx(b.free[q]));
        ZeroMarked(Idx(b.free[q]));
      }
    }
  }
}
