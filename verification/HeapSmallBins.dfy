/** Linking chunks into and out of the small bins keeps the bins in order. */
module HeapSmallBins {
  import opened Words
  import opened HeapWords
  import opened HeapBinMaps
  import opened HeapRings
  import opened HeapTries
  import opened HeapTrieMem
  import opened HeapBins

  /** What a chunk must satisfy to be put into the bins. */
  ghost predicate Insertable(b: Bins, msp: int, hi: int, p: int, s: int) {
    p !in b.free && PlaceOk(p, s, msp, hi) && Apart(b.free, p, s)
  }

  ghost function SmallRing(b: Bins, s: int): seq<int> {
    if s in b.rings then b.rings[s] else []
  }

  /** The bins after `insert_small_chunk`. */
  ghost function SmallInserted(b: Bins, p: int, s: int): Bins {
    AddMember(b, p, s, [p] + SmallRing(b, s))
  }

  /** What `insert_small_chunk` reads: the first chunk of the bin, or the header when the bin is empty. */
  ghost function SmallFirst(b: Bins, msp: int, s: int): int {
    if SmallRing(b, s) == [] then Header(msp, s) else SmallRing(b, s)[0]
  }

  lemma RingSizes(b: Bins, msp: int, hi: int)
    requires Places(b.free, msp, hi) && Members(b)
    ensures forall s :: s in b.rings ==> 16 <= s < hi - msp && s % 8 == 0
  {
    forall s | s in b.rings
      ensures 16 <= s < hi - msp && s % 8 == 0
    {
      assert RingOk(b, s);
      assert InRing(b, s, b.rings[s][0]);
      assert PlaceOk(b.rings[s][0], s, msp, hi);
    }
  }

  /** A small ring together with its header. */
  lemma SmallRingFacts(m: Mem, b: Bins, msp: int, hi: int, s: int)
    requires Places(b.free, msp, hi) && Members(b) && RingsLinked(m, b, msp) && msp % 8 == 0
    requires 16 <= s < MIN_LARGE_SIZE && s % 8 == 0
    ensures var r := [Header(msp, s)] + SmallRing(b, s);
            && Distinct(r) && Aligned(r)
            && (|r| > 1 ==> Linked(m, r))
            && (forall q :: q in SmallRing(b, s) ==> InRing(b, s, q))
            && Distinct(SmallRing(b, s))
  {
    var c := SmallRing(b, s);
    var r := [Header(msp, s)] + c;
    if s in b.rings {
      assert RingOk(b, s);
      assert r == Ring(b, msp, s);
      forall j | 0 <= j < |c|
        ensures InRing(b, s, c[j]) && c[j] >= msp + STATE_SIZE && c[j] % 8 == 0
      {
        assert InRing(b, s, c[j]);
        assert PlaceOk(c[j], s, msp, hi);
      }
    }
  }

  lemma InsertSmallMem(m: Mem, b: Bins, msp: int, hi: int, p: Word, s: int)
    requires DomOk(m, msp, hi) && msp + STATE_SIZE <= hi && Places(b.free, msp, hi) && Members(b)
             && RingsLinked(m, b, msp)
    requires Insertable(b, msp, hi, p, s) && s < MIN_LARGE_SIZE
    ensures var B, F := Header(msp, s), SmallFirst(b, msp, s);
            && 0 <= B < W && 0 <= F < W && B % 8 == 0 && F % 8 == 0
            && B + 8 in m && F + 12 in m && p + 8 in m && p + 12 in m
            && B != p && (F == B || F in b.free)
            && (F == B || InRing(b, s, F))
            && (SmallRing(b, s) != [] ==> Fd(m, B) == F)
  {
    PlaceWords(m, msp, hi, p, s);
    HeaderWords(m, msp, hi, s);
    SmallFirstFacts(m, b, msp, hi, s);
    hide *;
    if SmallRing(b, s) != [] {
      PlaceWords(m, msp, hi, SmallFirst(b, msp, s), s);
    }
  }

  lemma SmallFirstFacts(m: Mem, b: Bins, msp: int, hi: int, s: int)
    requires Places(b.free, msp, hi) && Members(b) && RingsLinked(m, b, msp) && msp % 8 == 0
    requires 16 <= s < MIN_LARGE_SIZE && s % 8 == 0
    ensures var F := SmallFirst(b, msp, s);
            if SmallRing(b, s) == [] then F == Header(msp, s)
            else InRing(b, s, F) && PlaceOk(F, s, msp, hi) && Fd(m, Header(msp, s)) == F
  {
    var c := SmallRing(b, s);
    SmallRingFacts(m, b, msp, hi, s);
    if c != [] {
      var r := [Header(msp, s)] + c;
      assert c[0] in c && r[1] == c[0];
      assert LinkAt(m, r, 0);
    }
  }

  lemma InsertMemDom(m: Mem, lo: int, hi: int, B: Word, F: Word, p: Word)
    requires DomOk(m, lo, hi) && B + 8 in m && F + 12 in m && p + 8 in m && p + 12 in m
    ensures DomOk(InsertMem(m, B, F, p), lo, hi)
  {
    DomStore(m, lo, hi, B + 8, p);
    DomStore(m[B + 8 := p], lo, hi, F + 12, p);
    DomStore(m[B + 8 := p][F + 12 := p], lo, hi, p + 8, F);
  }

  lemma InsertSmallRings(m: Mem, b: Bins, msp: int, hi: int, p: Word, s: int, B: Word, F: Word)
    requires DomOk(m, msp, hi) && msp + STATE_SIZE <= hi && Places(b.free, msp, hi) && Members(b)
             && RingsLinked(m, b, msp)
    requires Insertable(b, msp, hi, p, s) && s < MIN_LARGE_SIZE
    requires B == Header(msp, s) && F == SmallFirst(b, msp, s)
    ensures Members(SmallInserted(b, p, s))
    ensures RingsLinked(InsertMem(m, B, F, p), SmallInserted(b, p, s), msp)
  {
    InsertSmallMem(m, b, msp, hi, p, s);
    var m', b' := InsertMem(m, B, F, p), SmallInserted(b, p, s);
    InsertSmallOwn(m, b, msp, hi, p, s, B, F);
    InsertSmallMembers(m, b, msp, hi, p, s);
    InsertSmallOthers(m, b, msp, hi, p, s, B, F);
    OtherRings(m, m', b, msp, hi, s);
    hide Linked;
    hide Members;
    forall z | z in b'.rings
      ensures Linked(m', Ring(b', msp, z))
    {
      if z != s {
        assert Ring(b', msp, z) == Ring(b, msp, z);
      }
    }
  }

  lemma InsertSmallMembers(m: Mem, b: Bins, msp: int, hi: int, p: int, s: int)
    requires msp % 8 == 0 && Places(b.free, msp, hi) && Members(b) && RingsLinked(m, b, msp)
    requires Insertable(b, msp, hi, p, s) && s < MIN_LARGE_SIZE
    ensures Members(SmallInserted(b, p, s))
  {
    SmallRingFacts(m, b, msp, hi, s);
    var c := SmallRing(b, s);
    hide Linked;
    hide RingsLinked;
    assert p !in c;
    MembersInsert(b, p, s, [p] + c);
  }

  lemma InsertSmallOwn(m: Mem, b: Bins, msp: int, hi: int, p: Word, s: int, B: Word, F: Word)
    requires msp % 8 == 0 && Places(b.free, msp, hi) && Members(b) && RingsLinked(m, b, msp)
    requires Insertable(b, msp, hi, p, s) && s < MIN_LARGE_SIZE
    requires B == Header(msp, s) && F == SmallFirst(b, msp, s)
    ensures Linked(InsertMem(m, B, F, p), Ring(SmallInserted(b, p, s), msp, s))
  {
    SmallRingFacts(m, b, msp, hi, s);
    hide *;
    var c := SmallRing(b, s);
    NotInSmallRing(m, b, msp, hi, p, s);
    SmallFirstIs(b, msp, p, s);
    InsertLinked(m, [B] + c, p, B, F);
  }

  lemma NotInSmallRing(m: Mem, b: Bins, msp: int, hi: int, p: int, s: int)
    requires msp % 8 == 0 && Places(b.free, msp, hi) && Members(b) && RingsLinked(m, b, msp)
    requires Insertable(b, msp, hi, p, s) && s < MIN_LARGE_SIZE
    ensures p % 8 == 0 && p !in [Header(msp, s)] + SmallRing(b, s)
    ensures 16 <= s && s % 8 == 0
  {
    SmallRingFacts(m, b, msp, hi, s);
    assert p !in SmallRing(b, s);
  }

  lemma SmallFirstIs(b: Bins, msp: int, p: int, s: int)
    requires s < MIN_LARGE_SIZE
    ensures var r := [Header(msp, s)] + SmallRing(b, s);
            && SmallFirst(b, msp, s) == r[if |r| == 1 then 0 else 1]
            && s in SmallInserted(b, p, s).rings
            && InsertSeq(r, p) == Ring(SmallInserted(b, p, s), msp, s)
  {
  }

  lemma InsertSmallOthers(m: Mem, b: Bins, msp: int, hi: int, p: Word, s: int, B: Word, F: Word)
    requires msp % 8 == 0 && Places(b.free, msp, hi) && Insertable(b, msp, hi, p, s) && s < MIN_LARGE_SIZE
    requires B == Header(msp, s) && B % 8 == 0 && F % 8 == 0 && B != p && (F == B || InRing(b, s, F))
    ensures OtherLinks(m, InsertMem(m, B, F, p), b, msp, s)
  {
    hide InsertMem;
    var m' := InsertMem(m, B, F, p);
    assert InRing(b, s, F) ==> PlaceOk(F, s, msp, hi);
    forall q | q in b.free && b.free[q] != s
      ensures SameLinks(m, m', q)
    {
      assert PlaceOk(q, b.free[q], msp, hi);
      InsertMemWords(m, B, F, p, q);
    }
    forall z | 0 <= z < MIN_LARGE_SIZE && z % 8 == 0 && z != s
      ensures SameLinks(m, m', Header(msp, z))
    {
      HeaderMod(msp, z);
      InsertMemWords(m, B, F, p, Header(msp, z));
    }
  }

  lemma InsertSmallTree(m: Mem, b: Bins, msp: int, hi: int, p: Word, s: int, B: Word, F: Word)
    requires DomOk(m, msp, hi) && msp + STATE_SIZE <= hi && Places(b.free, msp, hi) && Members(b)
    requires Insertable(b, msp, hi, p, s) && s < MIN_LARGE_SIZE
    requires B == Header(msp, s) && B != p && (F == B || InRing(b, s, F))
    ensures TreeKept(m, InsertMem(m, B, F, p), b, msp)
  {
    assert 16 <= s && s % 8 == 0 && msp + STATE_SIZE <= p;
    hide DomOk;
    hide Members;
    hide InRing;
    SmallLinks(b, msp, hi, s, F);
    SmallLinks(b, msp, hi, s, B);
    forall q | q in b.free && b.free[q] >= MIN_LARGE_SIZE
      ensures SameTree(m, InsertMem(m, B, F, p), q)
    {
      AwayFromTree(b, msp, hi, s, F, q);
      AwayFromTree(b, msp, hi, s, B, q);
      assert q + b.free[q] <= p || p + s <= q;
      InsertAway(m, B, F, p, q + 16);
      InsertAway(m, B, F, p, q + 20);
      InsertAway(m, B, F, p, q + 24);
      InsertAway(m, B, F, p, q + 28);
    }
    forall i | 0 <= i < 32
      ensures Rd(m, Slot(msp, i)) == Rd(InsertMem(m, B, F, p), Slot(msp, i))
    {
      InsertAway(m, B, F, p, Slot(msp, i));
    }
    hide InsertMem;
    hide Places;
  }

  lemma InsertAway(m: Mem, B: Word, F: Word, p: Word, a: int)
    requires a != B + 8 && a != F + 12 && a != p + 8 && a != p + 12
    ensures Rd(m, a) == Rd(InsertMem(m, B, F, p), a)
  {
  }

  lemma SmallMarkOk(smallmap: Word, treemap: Word, b: Bins, p: int, s: int)
    requires MapsOk(smallmap, treemap, b) && 16 <= s < MIN_LARGE_SIZE && s % 8 == 0
    ensures Or(smallmap, IdxBit(s / 8)) < W
    ensures MapsOk(Or(smallmap, IdxBit(s / 8)), treemap, SmallInserted(b, p, s))
  {
    var sm := Or(smallmap, IdxBit(s / 8));
    OrWord(smallmap, s / 8);
    forall i: nat | i < 32
      ensures Marked(sm, i) <==> 8 * i in SmallInserted(b, p, s).rings
    {
      MarkBit(smallmap, s / 8, i);
    }
  }

  lemma SmallMarked(smallmap: Word, treemap: Word, b: Bins, p: int, s: int)
    requires MapsOk(smallmap, treemap, b) && s in b.rings
    ensures MapsOk(smallmap, treemap, SmallInserted(b, p, s))
  {
  }

  lemma InsertSmallFrame(m: Mem, b: Bins, msp: int, p: Word, s: int, B: Word, F: Word)
    requires 16 <= s < MIN_LARGE_SIZE && B == Header(msp, s) && (F == B || InRing(b, s, F)) && p !in b.free
    ensures Frame(m, InsertMem(m, B, F, p), b.free[p := s], msp)
  {
    var m', free' := InsertMem(m, B, F, p), b.free[p := s];
    forall a | !Owned(free', msp, a)
      ensures Rd(m', a) == Rd(m, a)
    {
      assert p in free' && free'[p] == s;
      assert F == B || (F in free' && free'[F] == s);
    }
  }

  /** `insert_small_chunk` into a bin, whether or not it was empty. */
  lemma InsertSmallOk(m: Mem, smallmap: Word, treemap: Word, b: Bins, msp: int, hi: int, p: Word, s: int, B: Word,
                      F: Word)
    requires BinsOk(m, smallmap, treemap, b, msp, hi) && Insertable(b, msp, hi, p, s) && s < MIN_LARGE_SIZE
    requires B == Header(msp, s) && F == SmallFirst(b, msp, s)
    ensures Or(smallmap, IdxBit(s / 8)) < W
    ensures var sm := if s in b.rings then smallmap else Or(smallmap, IdxBit(s / 8));
            BinsOk(InsertMem(m, B, F, p), sm, treemap, SmallInserted(b, p, s), msp, hi)
    ensures Frame(m, InsertMem(m, B, F, p), b.free[p := s], msp)
  {
    InsertSmallMem(m, b, msp, hi, p, s);
    InsertMemDom(m, msp, hi, B, F, p);
    InsertSmallRings(m, b, msp, hi, p, s, B, F);
    InsertSmallTree(m, b, msp, hi, p, s, B, F);
    InsertSmallFrame(m, b, msp, p, s, B, F);
    PlacesInsert(b.free, msp, hi, p, s);
    RingSizes(b, msp, hi);
    SmallMarkOk(smallmap, treemap, b, p, s);
    if s in b.rings {
      SmallMarked(smallmap, treemap, b, p, s);
    }
    TrieKept(m, InsertMem(m, B, F, p), b, SmallInserted(b, p, s), msp);
  }

  // ---------------------------------------------------------------- unlinking

  /** Where the binned chunk `p` stands in its ring. */
  ghost function IndexOf(r: seq<int>, p: int): (j: int)
    requires p in r
    ensures 0 <= j < |r| && r[j] == p
  {
    var j :| 0 <= j < |r| && r[j] == p;
    j
  }

  /** The bins after unlinking `p` from the ring of its size. */
  ghost function RingRemoved(b: Bins, p: int): Bins
    requires p in b.free && b.free[p] in b.rings && p in b.rings[b.free[p]]
  {
    var s := b.free[p];
    DropMember(b, p, s, RemoveSeq(b.rings[s], IndexOf(b.rings[s], p)))
  }

  lemma RemoveSeqElems(r: seq<int>, j: int)
    requires Distinct(r) && 0 <= j < |r|
    ensures Distinct(RemoveSeq(r, j))
    ensures forall q :: q in RemoveSeq(r, j) <==> q != r[j] && q in r
  {
    var r' := RemoveSeq(r, j);
    forall q | q in r && q != r[j]
      ensures q in r'
    {
      var i :| 0 <= i < |r| && r[i] == q;
      assert r'[if i < j then i else i - 1] == q;
    }
    forall q | q in r'
      ensures q in r && q != r[j]
    {
      var i :| 0 <= i < |r'| && r'[i] == q;
      assert r[if i < j then i else i + 1] == q;
    }
  }

  /** What the unlink macros read of the small chunk `p`. */
  lemma UnlinkSmallMem(m: Mem, b: Bins, msp: int, hi: int, p: int)
    requires DomOk(m, msp, hi) && msp + STATE_SIZE <= hi && Places(b.free, msp, hi) && Members(b)
             && RingsLinked(m, b, msp)
    requires p in b.free && b.free[p] < MIN_LARGE_SIZE
    ensures var s, F, K := b.free[p], Fd(m, p), Bk(m, p);
            && p + 8 in m && p + 12 in m && F + 12 in m && K + 8 in m
            && (F == Header(msp, s) || InRing(b, s, F)) && (K == Header(msp, s) || InRing(b, s, K))
            && (F == K <==> |b.rings[s]| == 1)
            && (F == K ==> F == Header(msp, s) && b.rings[s] == [p])
            && F % 8 == 0 && K % 8 == 0
            && Bk(m, F) == p && Fd(m, K) == p
  {
    var s := b.free[p];
    assert PlaceOk(p, s, msp, hi);
    SmallRingFacts(m, b, msp, hi, s);
    var r := [Header(msp, s)] + b.rings[s];
    var j := IndexOf(b.rings[s], p) + 1;
    assert r == Ring(b, msp, s) && r[j] == p;
    assert LinkAt(m, r, j) && LinkAt(m, r, j - 1);
    RingElem(b, msp, hi, s, j - 1);
    RingElem(b, msp, hi, s, Next(j, |r|));
    var F, K := Fd(m, p), Bk(m, p);
    assert InRing(b, s, F) ==> PlaceOk(F, s, msp, hi);
    assert InRing(b, s, K) ==> PlaceOk(K, s, msp, hi);
  }

  lemma RemoveMemWords(m: Mem, f: Word, k: Word, q: int)
    requires f % 8 == 0 && k % 8 == 0 && q % 8 == 0 && q != f && q != k
    ensures SameLinks(m, RemoveMem(m, f, k), q)
  {
  }

  lemma UnlinkSmallOthers(m: Mem, b: Bins, msp: int, hi: int, s: int, F: Word, K: Word)
    requires msp % 8 == 0 && Places(b.free, msp, hi) && F % 8 == 0 && K % 8 == 0
    requires F == Header(msp, s) || InRing(b, s, F)
    requires K == Header(msp, s) || InRing(b, s, K)
    requires s < MIN_LARGE_SIZE
    ensures OtherLinks(m, RemoveMem(m, F, K), b, msp, s)
  {
    hide RemoveMem;
    var m' := RemoveMem(m, F, K);
    assert InRing(b, s, F) ==> PlaceOk(F, s, msp, hi);
    assert InRing(b, s, K) ==> PlaceOk(K, s, msp, hi);
    forall q | q in b.free && b.free[q] != s
      ensures SameLinks(m, m', q)
    {
      assert PlaceOk(q, b.free[q], msp, hi);
      RemoveMemWords(m, F, K, q);
    }
    forall z | 0 <= z < MIN_LARGE_SIZE && z % 8 == 0 && z != s
      ensures SameLinks(m, m', Header(msp, z))
    {
      HeaderMod(msp, z);
      RemoveMemWords(m, F, K, Header(msp, z));
    }
  }

  lemma UnlinkSmallRings(m: Mem, b: Bins, msp: int, hi: int, p: int)
    requires DomOk(m, msp, hi) && msp + STATE_SIZE <= hi && Places(b.free, msp, hi) && Members(b)
             && RingsLinked(m, b, msp)
    requires p in b.free && b.free[p] < MIN_LARGE_SIZE
    ensures var m' := if Fd(m, p) == Bk(m, p) then m else RemoveMem(m, Fd(m, p), Bk(m, p));
            Members(RingRemoved(b, p)) && RingsLinked(m', RingRemoved(b, p), msp)
  {
    var s, F, K := b.free[p], Fd(m, p), Bk(m, p);
    var m', b' := if F == K then m else RemoveMem(m, F, K), RingRemoved(b, p);
    UnlinkSmallMem(m, b, msp, hi, p);
    RemoveMembers(b, p);
    UnlinkSmallOthers(m, b, msp, hi, s, F, K);
    OtherRings(m, m', b, msp, hi, s);
    if F != K {
      UnlinkSmallOwn(m, b, msp, hi, p);
    }
    hide Linked;
    hide Distinct;
    forall z | z in b'.rings
      ensures Linked(m', Ring(b', msp, z))
    {
      if z != s {
        assert Ring(b', msp, z) == Ring(b, msp, z);
      }
    }
  }

  lemma RemoveMembers(b: Bins, p: int)
    requires Members(b) && p in b.free
    ensures Members(RingRemoved(b, p))
  {
    var c := b.rings[b.free[p]];
    assert RingOk(b, b.free[p]);
    RemoveSeqElems(c, IndexOf(c, p));
    MembersRemove(b, p, b.free[p], RemoveSeq(c, IndexOf(c, p)));
  }

  /** The ring `p` leaves stays a ring. */
  lemma UnlinkSmallOwn(m: Mem, b: Bins, msp: int, hi: int, p: int)
    requires msp % 8 == 0 && Places(b.free, msp, hi) && Members(b) && RingsLinked(m, b, msp)
    requires p in b.free && b.free[p] < MIN_LARGE_SIZE && |b.rings[b.free[p]]| > 1
    ensures Linked(RemoveMem(m, Fd(m, p), Bk(m, p)), Ring(RingRemoved(b, p), msp, b.free[p]))
  {
    var s := b.free[p];
    var c := b.rings[s];
    var j := IndexOf(c, p);
    FreeFacts(b, msp, hi, p);
    SmallRingFacts(m, b, msp, hi, s);
    hide Linked;
    hide Distinct;
    hide Aligned;
    hide Members;
    hide RingsLinked;
    var r := [Header(msp, s)] + c;
    RemoveLinked(m, r, j + 1);
    RemoveSeqCons(Header(msp, s), c, j);
  }

  lemma RemoveSeqCons(h: int, c: seq<int>, j: int)
    requires 0 <= j < |c|
    ensures RemoveSeq([h] + c, j + 1) == [h] + RemoveSeq(c, j)
    ensures |RemoveSeq(c, j)| == |c| - 1
  {
  }

  lemma UnlinkSmallTree(m: Mem, b: Bins, msp: int, hi: int, s: int, F: Word, K: Word)
    requires msp % 8 == 0 && Places(b.free, msp, hi) && 16 <= s < MIN_LARGE_SIZE && s % 8 == 0
    requires F == Header(msp, s) || InRing(b, s, F)
    requires K == Header(msp, s) || InRing(b, s, K)
    ensures TreeKept(m, RemoveMem(m, F, K), b, msp)
    ensures Frame(m, RemoveMem(m, F, K), b.free, msp)
  {
    hide Places;
    hide Header;
    hide InRing;
    SmallLinks(b, msp, hi, s, F);
    SmallLinks(b, msp, hi, s, K);
    forall q | q in b.free && b.free[q] >= MIN_LARGE_SIZE
      ensures SameTree(m, RemoveMem(m, F, K), q)
    {
      AwayFromTree(b, msp, hi, s, F, q);
      AwayFromTree(b, msp, hi, s, K, q);
    }
  }

  /**
    The links of a smallbin's header, or of a chunk in it, belong to the bins, and are not where the treebins' slots
    are.
   */
  lemma SmallLinks(b: Bins, msp: int, hi: int, s: int, F: int)
    requires Places(b.free, msp, hi) && 16 <= s < MIN_LARGE_SIZE && s % 8 == 0 && (F == Header(msp, s)
             || InRing(b, s, F))
    ensures Owned(b.free, msp, F + 8) && Owned(b.free, msp, F + 12)
    ensures F + 12 < msp + 312 || msp + 440 <= F
  {
    assert InRing(b, s, F) ==> PlaceOk(F, s, msp, hi);
  }

  lemma AwayFromTree(b: Bins, msp: int, hi: int, s: int, F: int, q: int)
    requires Places(b.free, msp, hi) && 16 <= s < MIN_LARGE_SIZE && (F == Header(msp, s) || InRing(b, s, F))
    requires q in b.free && b.free[q] >= MIN_LARGE_SIZE
    ensures F + 12 < q + 16 || q + 32 <= F + 8
  {
    assert PlaceOk(q, b.free[q], msp, hi) && Apart(b.free, q, b.free[q]);
    assert InRing(b, s, F) ==> PlaceOk(F, s, msp, hi);
  }

  lemma SmallClearOk(smallmap: Word, treemap: Word, b: Bins, p: int)
    requires MapsOk(smallmap, treemap, b) && p in b.free && 16 <= b.free[p] < MIN_LARGE_SIZE && b.free[p] % 8 == 0
    requires b.free[p] in b.rings && b.rings[b.free[p]] == [p]
    ensures IdxBit(b.free[p] / 8) < W
    ensures MapsOk(And(smallmap, Not(IdxBit(b.free[p] / 8))), treemap, RingRemoved(b, p))
  {
    var s := b.free[p];
    ClearBit(smallmap, s / 8, 0);
    forall i: nat | i < 32
      ensures Marked(And(smallmap, Not(IdxBit(s / 8))), i) <==> 8 * i in RingRemoved(b, p).rings
    {
      ClearBit(smallmap, s / 8, i);
    }
  }

  lemma SmallStays(smallmap: Word, treemap: Word, b: Bins, p: int)
    requires MapsOk(smallmap, treemap, b) && p in b.free
    requires b.free[p] in b.rings && p in b.rings[b.free[p]] && |b.rings[b.free[p]]| > 1
    ensures MapsOk(smallmap, treemap, RingRemoved(b, p))
  {
  }

  /** `unlink_small_chunk` and `unlink_first_small_chunk`. */
  lemma UnlinkSmallOk(m: Mem, smallmap: Word, treemap: Word, b: Bins, msp: int, hi: int, p: int)
    requires BinsOk(m, smallmap, treemap, b, msp, hi) && p in b.free && b.free[p] < MIN_LARGE_SIZE
    ensures IdxBit(b.free[p] / 8) < W
    ensures var F, K := Fd(m, p), Bk(m, p);
            var m' := if F == K then m else RemoveMem(m, F, K);
            && BinsOk(m', if F == K then And(smallmap, Not(IdxBit(b.free[p] / 8))) else smallmap, treemap,
                      RingRemoved(b, p), msp, hi)
            && Frame(m, m', b.free, msp)
            && RingRemoved(b, p).free == b.free - {p}
  {
    hide *;
    BinsParts(m, smallmap, treemap, b, msp, hi);
    var s, F, K := b.free[p], Fd(m, p), Bk(m, p);
    var m' := if F == K then m else RemoveMem(m, F, K);
    SmallPlace(b, msp, hi, p);
    UnlinkSmallMem(m, b, msp, hi, p);
    UnlinkSmallRings(m, b, msp, hi, p);
    UnlinkSmallTree(m, b, msp, hi, s, F, K);
    KeptSelf(m, b, msp);
    PlacesRemove(b.free, msp, hi, p);
    ClearBit(smallmap, s / 8, 0);
    RemoveMemDom(m, msp, hi, F, K);
    if F == K {
      SmallClearOk(smallmap, treemap, b, p);
    } else {
      SmallStays(smallmap, treemap, b, p);
    }
    RingRemovedTrie(m, m', b, msp, p);
    BinsParts(m', if F == K then And(smallmap, Not(IdxBit(s / 8))) else smallmap, treemap, RingRemoved(b, p), msp, hi);
  }

  lemma RemoveMemDom(m: Mem, lo: int, hi: int, F: Word, K: Word)
    requires DomOk(m, lo, hi) && F + 12 in m && K + 8 in m
    ensures DomOk(RemoveMem(m, F, K), lo, hi)
  {
    DomStore(m, lo, hi, F + 12, K);
  }

  lemma SmallPlace(b: Bins, msp: int, hi: int, p: int)
    requires Places(b.free, msp, hi) && Members(b) && p in b.free
    ensures 16 <= b.free[p] && b.free[p] % 8 == 0 && 0 !in b.rings
    ensures b.free[p] < MIN_LARGE_SIZE ==> 0 <= b.free[p] / 8 < 32
    ensures b.free[p] in b.rings && p in b.rings[b.free[p]] && |b.rings[b.free[p]]| > 0
    ensures var r := RingRemoved(b, p); r.free == b.free - {p} && r.trie == b.trie && r.roots == b.roots
  {
    FreeFacts(b, msp, hi, p);
    RingSizes(b, msp, hi);
  }

  lemma KeptSelf(m: Mem, b: Bins, msp: int)
    ensures TreeKept(m, m, b, msp) && Frame(m, m, b.free, msp)
  {
  }

  lemma RingRemovedTrie(m: Mem, m': Mem, b: Bins, msp: int, p: int)
    requires Members(b) && TrieMem(m, b, msp) && Wf(b.trie, b.roots) && TreeKept(m, m', b, msp) && 0 !in b.rings
    requires p in b.free && b.free[p] < MIN_LARGE_SIZE
    ensures TrieMem(m', RingRemoved(b, p), msp)
  {
    TrieKept(m, m', b, RingRemoved(b, p), msp);
  }
}
