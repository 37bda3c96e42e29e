/** The translation tables of one process, and mapping a section of memory into them. */
module PageTables {
  import opened Words
  import opened Arithmetic
  import opened PageDescriptors
  import opened PageWalk
  import opened PageMapping

  class PageTable {
    const lvl1: array<Word>
    var l2: Tables
    /** The addresses the process's private pool will hand out for second-level tables. */
    var pool: seq<Word>

    ghost predicate Valid()
      reads this, lvl1
    {
      TablesOk(lvl1[..], l2) && PoolOk(pool, l2)
    }

    /** An empty table: nothing is translated. */
    constructor (pool: seq<Word>)
      requires PoolOk(pool, map[])
      ensures Valid() && fresh(lvl1) && this.pool == pool
      ensures forall va :: Walk(lvl1[..], l2, va) == Fault
    {
      lvl1 := new Word[NUM_L1_ENTRIES](i => 0);
      l2 := map[];
      this.pool := pool;
      new;
      assert forall i :: 0 <= i < lvl1.Length ==> lvl1[..][i] == 0;
      NothingMapped(lvl1[..]);
    }

    /**
      The second-level table for `virt`, made if there is none.  The test for a section entry comes after the mask
      that clears the bits it looks at, so that it never finds one.  A table at address 0 counts as none.
     */
    method GetTable(virt: Word) returns (ok: bool, base: Word)
      requires Valid() && L1Index(virt) < lvl1.Length
      modifies this, lvl1
      ensures Valid()
      ensures ok <==> if old(lvl1[L1Index(virt)]) == 0 then |old(pool)| > 0 else old(lvl1[L1Index(virt)]) >= 4096
      ensures old(PlainSlot(lvl1[..], L1Index(virt))) && !ok ==> old(pool) == []
      ensures pool == if ok && old(lvl1[L1Index(virt)]) == 0 then old(pool)[1..] else old(pool)
      ensures !old(PlainSlot(lvl1[..], L1Index(virt))) ==>
                lvl1[..] == old(lvl1[..]) && l2 == old(l2) && base == lvl1[L1Index(virt)] / 4096 * 4096
      ensures forall va :: 0 <= va < W ==> Walk(lvl1[..], l2, va) == Walk(old(lvl1[..]), old(l2), va)
      ensures ok && old(PlainSlot(lvl1[..], L1Index(virt))) ==>
                IsCoarse(lvl1[L1Index(virt)]) && TableOf(lvl1[L1Index(virt)]) == base && base in l2
                    && |l2[base]| == NUM_L2_ENTRIES
      ensures forall ms :: SlotsFree(old(lvl1[..]), ms) ==> SlotsFree(lvl1[..], ms)
    {
      hide CoarseDescriptor;
      hide Walk;
      hide SlotsFree;
      ghost var l1, i := lvl1[..], L1Index(virt);
      IndexBounds(virt);
      TableThere(l1, l2, i);
      PageZero(lvl1[L1Index(virt)]);
      base := 0;
      if lvl1[L1Index(virt)] == 0 {
        if |pool| == 0 {
          return false, 0;
        }
        base := pool[0];
        CreateOk(l1, l2, i, base);
        CoarseReads(base);
        PoolNext(pool, l2);
        var d: Word := CoarseDescriptor(base);
        forall va | 0 <= va < W
          ensures Walk(l1[i := d], l2[base := EmptyTable()], va) == Walk(l1, l2, va)
        {
          CreateWalk(l1, l2, i, base, va);
        }
        forall ms | SlotsFree(l1, ms)
          ensures SlotsFree(l1[i := d], ms)
        {
          SlotsKept(l1, i, d, ms);
        }
        pool := pool[1..];
        l2 := l2[base := EmptyTable()];
        lvl1[L1Index(virt)] := d;
        assert lvl1[..] == l1[i := d];
      }
      assert SlotOk(lvl1[..], l2, i);
      base := lvl1[L1Index(virt)] / 4096 * 4096;
      MaskedClear(lvl1[L1Index(virt)]);
      ok := base != 0 && base / 2 % 2 == 0;
      TableThere(lvl1[..], l2, i);
      PageZero(lvl1[L1Index(virt)]);
    }

    /**
      What mapping a page does in a megabyte that has a section entry: a page of that section is taken for a
      second-level table.  The descriptor goes to the address `at` in it and success is reported, unless that page is at
      address 0. The megabyte is translated as before; but if the page is a second-level table of another megabyte, a
      page of that one changes, and nothing else.
     */
    method PageOverSection(ms: MemSection, virt: Word, phys: Word) returns (ok: bool, at: Word)
      requires Valid() && L1Index(virt) < lvl1.Length && lvl1[L1Index(virt)] % 4 == 2
      modifies this, lvl1
      ensures Valid() && lvl1[..] == old(lvl1[..]) && pool == old(pool)
      ensures ok <==> lvl1[L1Index(virt)] >= 4096
      ensures ok ==> var s := lvl1[L1Index(virt)] / SECTION_SIZE * SECTION_SIZE; s <= at < s + SECTION_SIZE
      ensures forall va :: 0 <= va < W ==>
                Walk(lvl1[..], l2, va) == if ok && Hit(lvl1[..], virt, va)
                                          then Mapped(phys / 4096 * 4096 + va % 4096, Requested(ms))
                                          else Walk(lvl1[..], old(l2), va)
    {
      hide Walk;
      hide SlotsFree;
      hide TablesOk;
      hide PoolOk;
      hide PageDescriptor;
      IndexBounds(virt);
      ghost var l1, t := lvl1[..], l2;
      InsideSection(lvl1[L1Index(virt)], L2Index(virt));
      at := 0;
      var base;
      ok, base := GetTable(virt);
      PageReads(phys, Requested(ms), virt);
      var d: Word := PageDescriptor(phys, Requested(ms));
      forall va | 0 <= va < W
        ensures WalkAfter(l1, t, base, L2Index(virt), d, va) == if Hit(l1, virt, va)
                then Mapped(phys / 4096 * 4096 + va % 4096, Requested(ms)) else Walk(l1, t, va)
      {
        StrayEntry(l1, t, virt, phys, ms, va);
      }
      if ok {
        at := base + 4 * L2Index(virt);
        if base in l2 && L2Index(virt) < |l2[base]| {
          PageOk(l1, l2, base, L2Index(virt), d);
          PoolKept(pool, l2, base, L2Index(virt), d);
          l2 := WithEntry(l2, base, L2Index(virt), d);
        }
      }
    }

    /** Maps the megabyte at `virt` to that at `phys`. */
    method MapSection(ms: MemSection, virt: Word, phys: Word, ghost was1: seq<Word>, ghost was2: Tables)
      requires Valid() && Mappable(ms) && Sectioned(ms, virt) && phys == PageTarget(ms, virt) && CursorOk(ms, virt)
      requires Progress(lvl1[..], l2, was1, was2, ms, virt) && SlotsFree(lvl1[..], ms)
      modifies lvl1
      ensures Valid() && CursorOk(ms, virt + SECTION_SIZE) && SlotsFree(lvl1[..], ms)
      ensures Progress(lvl1[..], l2, was1, was2, ms, virt + SECTION_SIZE)
      ensures OthersKept(old(lvl1[..]), lvl1[..], ms)
    {
      hide SectionDescriptor;
      hide Walk;
      hide SlotsFree;
      hide Progress;
      hide ReadSection;
      ghost var l1 := lvl1[..];
      SectionReads(phys, Requested(ms), virt);
      var d: Word := SectionDescriptor(phys, Requested(ms));
      IndexBounds(virt);
      SectionOk(l1, l2, L1Index(virt), d);
      SlotsKeptBySection(l1, virt, d, ms);
      SectionKeepsOthers(l1, virt, d, ms);
      forall va | 0 <= va < W
        ensures Walk(l1[L1Index(virt) := d], l2, va) == if virt <= va < virt + SECTION_SIZE then ReadSection(d, va)
                else Walk(l1, l2, va)
      {
        SectionWalks(l1, l2, virt, d, va);
      }
      lvl1[L1Index(virt)] := d;
      assert lvl1[..] == l1[L1Index(virt) := d];
      ProgressSection(l1, l2, lvl1[..], was1, was2, ms, virt);
    }

    /** Maps the page at `virt` to that at `phys`. */
    method MapPage(ms: MemSection, virt: Word, phys: Word, ghost was1: seq<Word>, ghost was2: Tables) returns (ok: bool)
      requires Valid() && Mappable(ms) && virt < EndOf(ms) && !Sectioned(ms, SectionBase(virt))
               && phys == PageTarget(ms, virt)
      requires CursorOk(ms, virt) && Progress(lvl1[..], l2, was1, was2, ms, virt) && SlotsFree(lvl1[..], ms)
      modifies this, lvl1
      ensures Valid()
      ensures if ok then CursorOk(ms, virt + PAGE_SIZE) && virt + PAGE_SIZE <= EndOf(ms) && SlotsFree(lvl1[..], ms)
                         && Progress(lvl1[..], l2, was1, was2, ms, virt + PAGE_SIZE)
              else Progress(lvl1[..], l2, was1, was2, ms, virt)
      ensures |pool| <= |old(pool)| && (!ok ==> pool == [])
      ensures OthersKept(old(lvl1[..]), lvl1[..], ms)
    {
      hide PageDescriptor;
      hide Walk;
      hide SlotsFree;
      hide Progress;
      hide ReadPage;
      ghost var l1, t1 := lvl1[..], l2;
      IndexBounds(virt);
      FreeSlot(lvl1[..], ms, virt);
      var base;
      ok, base := GetTable(virt);
      ProgressSame(l1, t1, lvl1[..], l2, was1, was2, ms, virt);
      if ok {
        PageReads(phys, Requested(ms), virt);
        var d: Word := PageDescriptor(phys, Requested(ms));
        ghost var l1', t1' := lvl1[..], l2;
        PageOk(l1', l2, base, L2Index(virt), d);
        PoolKept(pool, l2, base, L2Index(virt), d);
        forall va | 0 <= va < W
          ensures Walk(l1', WithEntry(t1', base, L2Index(virt), d), va)
                  == if virt <= va < virt + PAGE_SIZE then ReadPage(d, va) else Walk(l1', t1', va)
        {
          PageWalks(l1', t1', virt, d, va);
        }
        l2 := WithEntry(l2, base, L2Index(virt), d);
        ProgressPage(l1', t1', lvl1[..], l2, was1, was2, ms, virt);
      }
    }

    /**
      Maps a section of memory, by megabytes where it can and by pages elsewhere.  It fails only where the pool has no
      second-level table left.
     */
    method MapMemory(ms: MemSection) returns (ok: bool)
      requires Valid() && Mappable(ms) && SlotsFree(lvl1[..], ms)
      modifies this, lvl1
      ensures Valid()
      ensures ok ==> forall va :: 0 <= va < W ==>
                Walk(lvl1[..], l2, va) == if Affected(ms, va) then Mapped(Target(ms, va), Requested(ms))
                    else Walk(old(lvl1[..]), old(l2), va)
      ensures Grants(Requested(ms), ms)
      ensures !ok ==> forall va :: 0 <= va < W && !Affected(ms, va) ==>
                Walk(lvl1[..], l2, va) == Walk(old(lvl1[..]), old(l2), va)
      ensures |pool| <= |old(pool)| && (!ok ==> pool == [])
      ensures OthersKept(old(lvl1[..]), lvl1[..], ms)
    {
      hide Walk;
      hide SlotsFree;
      hide Progress;
      hide SectionBase;
      hide Sectioned;
      RequestedGrants(ms);
      hide Grants;
      ghost var was1, was2 := lvl1[..], l2;
      ProgressStart(was1, was2, ms);
      var pages := PageCount(ms.size);
      var page := 0;
      ok := true;
      while page < pages
        invariant 0 <= page && Valid() && SlotsFree(lvl1[..], ms)
        invariant CursorOk(ms, ms.virt + page * PAGE_SIZE)
        invariant Progress(lvl1[..], l2, was1, was2, ms, ms.virt + page * PAGE_SIZE)
        invariant OthersKept(was1, lvl1[..], ms) && |pool| <= |old(pool)|
        decreases pages - page
      {
        var virt := ms.virt + page * PAGE_SIZE;
        var end := (virt + (pages - page) * PAGE_SIZE) % W;
        var phys := (ms.phys + page * PAGE_SIZE) % W;
        SectionedHere(ms, virt);
        if IsMegabyte(virt, end) {
          MapSection(ms, virt, phys, was1, was2);
          page := page + SECTION_SIZE / PAGE_SIZE - 1;
        } else {
          ok := MapPage(ms, virt, phys, was1, was2);
          if !ok {
            ProgressOutside(lvl1[..], l2, was1, was2, ms, virt);
            return;
          }
        }
        page := page + 1;
      }
      ProgressEnd(lvl1[..], l2, was1, was2, ms, ms.virt + page * PAGE_SIZE);
    }
  }

  /** The pool hands out page-aligned addresses that are not tables yet, each once, and none at address 0. */
  ghost predicate PoolOk(pool: seq<Word>, l2: Tables) {
    && 0 !in l2 && (forall i :: 0 <= i < |pool| ==> pool[i] % 4096 == 0 && pool[i] !in l2 && pool[i] != 0)
    && (forall i, j :: 0 <= i < j < |pool| ==> pool[i] != pool[j])
  }

  /** Mapping `ms` leaves room for the pages of mappings apart from it. */
  ghost predicate OthersKept(l1: seq<Word>, l1': seq<Word>, ms: MemSection) {
    Mappable(ms) && !(ms.virt <= 0xFFF0_0000 < EndOf(ms) < W) ==>
      forall other :: PagesApart(ms, other) && SlotsFree(l1, other) ==> SlotsFree(l1', other)
  }

  lemma SectionKeepsOthers(l1: seq<Word>, v0: int, d: Word, ms: MemSection)
    requires Sectioned(ms, v0) && 0 <= L1Index(v0) < |l1|
    ensures OthersKept(l1, l1[L1Index(v0) := d], ms)
  {
    hide SlotsFree;
    hide Sectioned;
    hide PagesApart;
    if Mappable(ms) && !(ms.virt <= 0xFFF0_0000 < EndOf(ms) < W) {
      forall other | PagesApart(ms, other) && SlotsFree(l1, other)
        ensures SlotsFree(l1[L1Index(v0) := d], other)
      {
        SlotsKeptApart(l1, v0, d, ms, other);
      }
    }
  }

  lemma PoolNext(pool: seq<Word>, l2: Tables)
    requires PoolOk(pool, l2) && |pool| > 0
    ensures PoolOk(pool[1..], l2[pool[0] := EmptyTable()])
  {
  }

  lemma PoolKept(pool: seq<Word>, l2: Tables, base: int, j: int, d: Word)
    requires PoolOk(pool, l2) && base in l2 && 0 <= j < |l2[base]|
    ensures PoolOk(pool, WithEntry(l2, base, j, d))
  {
  }

  lemma NothingMapped(l1: seq<Word>)
    requires |l1| == NUM_L1_ENTRIES && forall i :: 0 <= i < |l1| ==> l1[i] == 0
    ensures TablesOk(l1, map[]) && forall va :: Walk(l1, map[], va) == Fault
  {
    forall i | 0 <= i < |l1|
      ensures SlotOk(l1, map[], i)
    {
    }
    forall i, j | 0 <= i < |l1| && 0 <= j < |l1|
      ensures SlotsApart(l1, i, j)
    {
    }
  }

  /** The tables after the word `j` of the page at `base` was written. */
  ghost function WalkAfter(l1: seq<Word>, l2: Tables, base: int, j: int, d: Word, va: int): Translation {
    if base in l2 && 0 <= j < |l2[base]| then Walk(l1, WithEntry(l2, base, j, d), va) else Walk(l1, l2, va)
  }

  /** The entry that translates `va` lies where a page at `virt`, in a section, has its descriptor written. */
  ghost predicate Hit(l1: seq<Word>, virt: int, va: int) {
    && 0 <= L1Index(virt) < |l1| && 0 <= L1Index(va) < |l1| && IsCoarse(l1[L1Index(va)])
    && TableOf(l1[L1Index(va)]) == l1[L1Index(virt)] / 4096 * 4096 && L2Index(va) == L2Index(virt)
  }

  /** Writing a descriptor into a page changes a translation only through a table in that page. */
  lemma StrayEntry(l1: seq<Word>, l2: Tables, virt: Word, phys: Word, ms: MemSection, va: int)
    requires TablesOk(l1, l2) && L1Index(virt) < |l1| && 0 <= va < W
    ensures 0 <= PageDescriptor(phys, Requested(ms)) < W
    ensures WalkAfter(l1, l2, l1[L1Index(virt)] / 4096 * 4096, L2Index(virt), PageDescriptor(phys, Requested(ms)), va)
            == if Hit(l1, virt, va) then Mapped(phys / 4096 * 4096 + va % 4096, Requested(ms)) else Walk(l1, l2, va)
  {
    hide ReadPage;
    hide ReadSection;
    hide PageDescriptor;
    hide TableOf;
    PageReads(phys, Requested(ms), va);
    IndexBounds(va);
    IndexBounds(virt);
    assert SlotOk(l1, l2, L1Index(va));
  }

  /**
    A case in which a table is hit: megabyte 0 is mapped by a section, which has the empty table of megabyte 1 in the
    page that is taken for a table.
   */
  lemma TableHit(ms: MemSection)
    requires ms == MemSection(0, 0, SECTION_SIZE, Ram, KernelAccess, ReadWrite)
    ensures var d := SectionDescriptor(0, Requested(ms));
            && 0 <= d < W && 0 <= CoarseDescriptor(0x2_1000) < W
            && var c := CoarseDescriptor(0x2_1000);
            var l1: seq<Word> := seq(NUM_L1_ENTRIES, i => if i == 0 then d else if i == 1 then c else 0);
            && TablesOk(l1, map[0x2_1000 := EmptyTable()]) && Hit(l1, 0, SECTION_SIZE)
            && Walk(l1, map[0x2_1000 := EmptyTable()], SECTION_SIZE) == Fault
  {
    var d: Word := SectionDescriptor(0, Requested(ms));
    var c: Word := CoarseDescriptor(0x2_1000);
    var l1: seq<Word> := seq(NUM_L1_ENTRIES, i => if i == 0 then d else if i == 1 then c else 0);
    var l2 := map[0x2_1000 := EmptyTable()];
    assert d / 4096 * 4096 == 0x2_1000 && d % 4 == 2;
    forall i | 0 <= i < |l1|
      ensures SlotOk(l1, l2, i)
    {
    }
    forall i, j | 0 <= i < |l1| && 0 <= j < |l1|
      ensures SlotsApart(l1, i, j)
    {
    }
    EmptyReads(0x2_1000, l2, SECTION_SIZE);
  }

  lemma TableThere(l1: seq<Word>, l2: Tables, i: int)
    requires TablesOk(l1, l2) && 0 <= i < |l1| && 0 !in l2
    ensures IsCoarse(l1[i]) ==> l1[i] / 4096 * 4096 != 0
  {
    assert SlotOk(l1, l2, i);
  }

  lemma PageZero(d: Word)
    ensures d / 4096 * 4096 == 0 <==> d < 4096
  {
  }

  /** A page of a megabyte, and a word of its first kilobyte, lie in the megabyte. */
  lemma InsideSection(d: Word, j: int)
    requires 0 <= j < NUM_L2_ENTRIES
    ensures var s, a := d / SECTION_SIZE * SECTION_SIZE, d / 4096 * 4096 + 4 * j;
            s <= a < s + SECTION_SIZE && 0 <= a < W
  {
    var n, r := d / 4096, d % 4096;
    var q, m := n / 256, n % 256;
    assert d == 4096 * n + r && n == 256 * q + m;
    Peel(4096 * m + r, SECTION_SIZE, q);
    assert d == 4096 * m + r + SECTION_SIZE * q;
  }

  /** The page mask clears the bit that tells a section. */
  lemma MaskedClear(d: Word)
    ensures var base := d / 4096 * 4096; 0 <= base < W && base / 2 % 2 == 0
  {
    var n := d / 4096;
    assert d == 4096 * n + d % 4096;
    Peel(0, 2, 2048 * n);
    Peel(0, 2, 1024 * n);
  }

  lemma FreeSlot(l1: seq<Word>, ms: MemSection, v: int)
    requires SlotsFree(l1, ms) && 0 <= v < W && CursorOk(ms, v) && v < EndOf(ms) && !Sectioned(ms, SectionBase(v))
    ensures PlainSlot(l1, L1Index(v))
  {
  }

  lemma ProgressSame(l1: seq<Word>, l2: Tables, l1': seq<Word>, l2': Tables, was1: seq<Word>, was2: Tables,
                     ms: MemSection, v: int)
    requires Progress(l1, l2, was1, was2, ms, v)
    requires forall va :: 0 <= va < W ==> Walk(l1', l2', va) == Walk(l1, l2, va)
    ensures Progress(l1', l2', was1, was2, ms, v)
  {
    hide Walk;
    forall va | 0 <= va < W
      ensures MappedTo(l1', l2', was1, was2, ms, v, va)
    {
      assert MappedTo(l1, l2, was1, was2, ms, v, va);
    }
  }

  /** The test the loop makes is whether the megabyte at the cursor goes into one section descriptor. */
  lemma SectionedHere(ms: MemSection, v: int)
    requires Mappable(ms) && CursorOk(ms, v) && v < EndOf(ms)
    ensures 0 <= v < W
    ensures IsMegabyte(v, EndOf(ms) % W) <==> Sectioned(ms, v)
    ensures !Sectioned(ms, v) ==> !Sectioned(ms, SectionBase(v))
  {
    hide SectionBase;
    BaseFacts(v);
  }

  lemma ProgressOutside(l1: seq<Word>, l2: Tables, was1: seq<Word>, was2: Tables, ms: MemSection, v: int)
    requires Progress(l1, l2, was1, was2, ms, v)
    ensures forall va :: 0 <= va < W && !Affected(ms, va) ==> Walk(l1, l2, va) == Walk(was1, was2, va)
  {
    hide Walk;
    forall va | 0 <= va < W && !Affected(ms, va)
      ensures Walk(l1, l2, va) == Walk(was1, was2, va)
    {
      assert MappedTo(l1, l2, was1, was2, ms, v, va);
    }
  }

  lemma ProgressEnd(l1: seq<Word>, l2: Tables, was1: seq<Word>, was2: Tables, ms: MemSection, v: int)
    requires Mappable(ms) && Progress(l1, l2, was1, was2, ms, v) && CursorOk(ms, v) && EndOf(ms) <= v
    ensures forall va :: 0 <= va < W ==>
              Walk(l1, l2, va) == if Affected(ms, va) then Mapped(Target(ms, va), Requested(ms))
                  else Walk(was1, was2, va)
  {
    hide Walk;
    forall va | 0 <= va < W
      ensures Walk(l1, l2, va) == if Affected(ms, va) then Mapped(Target(ms, va), Requested(ms))
              else Walk(was1, was2, va)
    {
      assert MappedTo(l1, l2, was1, was2, ms, v, va);
      ProgressDone(ms, v, va);
    }
  }
}
