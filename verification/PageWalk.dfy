/** The two-level walk of the hardware, and what writing one descriptor does to it. */
module PageWalk {
  import opened Words
  import opened Arithmetic
  import opened PageDescriptors

  /** The second-level tables by their address. */
  type Tables = map<int, seq<Word>>

  function L1Index(va: int): int { va / SECTION_SIZE }

  function L2Index(va: int): int { va / PAGE_SIZE % NUM_L2_ENTRIES }

  predicate IsCoarse(d: int) { d % 4 == 1 }

  /** The address of the second-level table a coarse descriptor names. */
  function TableOf(d: int): int { d / 1024 * 1024 }

  function ReadTable(l2: Tables, base: int, va: int): Translation {
    if base in l2 && 0 <= L2Index(va) < |l2[base]| then ReadPage(l2[base][L2Index(va)], va) else Fault
  }

  function ReadFirst(d: int, l2: Tables, va: int): Translation {
    if IsCoarse(d) then ReadTable(l2, TableOf(d), va)
    else if d % 4 == 2 then ReadSection(d, va)
    else Fault
  }

  /** Where the hardware takes the virtual address `va`. */
  function Walk(l1: seq<Word>, l2: Tables, va: int): Translation {
    if 0 <= L1Index(va) < |l1| then ReadFirst(l1[L1Index(va)], l2, va) else Fault
  }

  /** A first-level entry that small pages may go into: empty, or a second-level table on its own page. */
  ghost predicate SlotOk(l1: seq<Word>, l2: Tables, i: int)
    requires 0 <= i < |l1|
  {
    IsCoarse(l1[i]) ==>
      && TableOf(l1[i]) in l2 && |l2[TableOf(l1[i])]| == NUM_L2_ENTRIES && l1[i] / 4096 * 4096 == TableOf(l1[i])
  }

  ghost predicate SlotsApart(l1: seq<Word>, i: int, j: int)
    requires 0 <= i < |l1| && 0 <= j < |l1|
  {
    i != j && IsCoarse(l1[i]) && IsCoarse(l1[j]) ==> TableOf(l1[i]) != TableOf(l1[j])
  }

  /** Every coarse entry has a second-level table of its own. */
  ghost predicate TablesOk(l1: seq<Word>, l2: Tables) {
    && |l1| == NUM_L1_ENTRIES
    && (forall i {:trigger SlotOk(l1, l2, i)} :: 0 <= i < |l1| ==> SlotOk(l1, l2, i))
    && (forall i, j {:trigger SlotsApart(l1, i, j)} :: 0 <= i < |l1| && 0 <= j < |l1| ==> SlotsApart(l1, i, j))
  }

  /** Writes entry `j` of the table at `base`. */
  function WithEntry(l2: Tables, base: int, j: int, d: Word): Tables
    requires base in l2 && 0 <= j < |l2[base]|
  {
    var t: seq<Word> := l2[base][j := d];
    l2[base := t]
  }

  lemma IndexBounds(va: int)
    requires 0 <= va < W
    ensures 0 <= L1Index(va) < NUM_L1_ENTRIES && 0 <= L2Index(va) < NUM_L2_ENTRIES
  {
  }

  function EmptyTable(): (t: seq<Word>)
    ensures |t| == NUM_L2_ENTRIES && forall i :: 0 <= i < |t| ==> t[i] == 0
  {
    seq(NUM_L2_ENTRIES, i => 0)
  }

  // ---------------------------------------------------------------- a new second-level table

  /** An empty second-level table in an empty slot translates nothing, as before. */
  lemma CreateWalk(l1: seq<Word>, l2: Tables, i: int, base: Word, va: int)
    requires TablesOk(l1, l2) && 0 <= i < |l1| && l1[i] == 0 && base % 4096 == 0 && base !in l2 && 0 <= va < W
    ensures 0 <= CoarseDescriptor(base) < W
    ensures Walk(l1[i := CoarseDescriptor(base)], l2[base := EmptyTable()], va) == Walk(l1, l2, va)
  {
    hide ReadPage;
    hide ReadSection;
    hide CoarseDescriptor;
    CoarseReads(base);
    IndexBounds(va);
    var k := L1Index(va);
    if k == i {
      EmptyReads(base, l2[base := EmptyTable()], va);
    } else {
      assert SlotOk(l1, l2, k);
    }
  }

  lemma EmptyReads(base: int, l2: Tables, va: int)
    requires base in l2 && l2[base] == EmptyTable() && 0 <= va < W
    ensures ReadTable(l2, base, va) == Fault
  {
    IndexBounds(va);
  }

  lemma CreateOk(l1: seq<Word>, l2: Tables, i: int, base: Word)
    requires TablesOk(l1, l2) && 0 <= i < |l1| && l1[i] == 0 && base % 4096 == 0 && base !in l2
    ensures 0 <= CoarseDescriptor(base) < W
    ensures TablesOk(l1[i := CoarseDescriptor(base)], l2[base := EmptyTable()])
  {
    hide CoarseDescriptor;
    CoarseReads(base);
    var l1', l2' := l1[i := CoarseDescriptor(base)], l2[base := EmptyTable()];
    forall k | 0 <= k < |l1'|
      ensures SlotOk(l1', l2', k)
    {
      assert SlotOk(l1, l2, k);
    }
    forall j, k | 0 <= j < |l1'| && 0 <= k < |l1'|
      ensures SlotsApart(l1', j, k)
    {
      assert SlotsApart(l1, j, k) && SlotOk(l1, l2, j) && SlotOk(l1, l2, k);
    }
  }

  // ---------------------------------------------------------------- a page

  /** A page descriptor changes the translation of its own page and of no other. */
  lemma PageWalks(l1: seq<Word>, l2: Tables, va0: int, d: Word, va: int)
    requires TablesOk(l1, l2) && 0 <= va0 < W && 0 <= va < W && va0 % PAGE_SIZE == 0
    requires L1Index(va0) < |l1| && IsCoarse(l1[L1Index(va0)]) && TableOf(l1[L1Index(va0)]) in l2
    requires |l2[TableOf(l1[L1Index(va0)])]| == NUM_L2_ENTRIES
    ensures 0 <= L2Index(va0) < NUM_L2_ENTRIES
    ensures var base := TableOf(l1[L1Index(va0)]);
            Walk(l1, WithEntry(l2, base, L2Index(va0), d), va)
            == if va0 <= va < va0 + PAGE_SIZE then ReadPage(d, va) else Walk(l1, l2, va)
  {
    hide ReadPage;
    hide ReadSection;
    hide TableOf;
    IndexBounds(va0);
    IndexBounds(va);
    SamePage(va0, va);
    assert SlotsApart(l1, L1Index(va0), L1Index(va)) && SlotOk(l1, l2, L1Index(va));
  }

  /** Two addresses have the same two indices exactly when they lie in the same page. */
  lemma SamePage(va0: int, va: int)
    requires 0 <= va0 < W && 0 <= va < W && va0 % PAGE_SIZE == 0
    ensures L1Index(va) == L1Index(va0) && L2Index(va) == L2Index(va0) <==> va0 <= va < va0 + PAGE_SIZE
  {
    var p, q := va0 / PAGE_SIZE, va / PAGE_SIZE;
    assert va0 == PAGE_SIZE * p;
    PageOfSection(va0);
    PageOfSection(va);
    assert p == 256 * L1Index(va0) + L2Index(va0) && q == 256 * L1Index(va) + L2Index(va);
  }

  lemma PageOfSection(va: int)
    requires 0 <= va < W
    ensures L1Index(va) == va / PAGE_SIZE / 256
  {
    var q := va / PAGE_SIZE;
    var s := q / 256;
    assert va == PAGE_SIZE * q + va % PAGE_SIZE && q == 256 * s + q % 256;
    Peel(va - SECTION_SIZE * s, SECTION_SIZE, s);
  }

  lemma PageOk(l1: seq<Word>, l2: Tables, base: int, j: int, d: Word)
    requires TablesOk(l1, l2) && base in l2 && 0 <= j < |l2[base]|
    ensures TablesOk(l1, WithEntry(l2, base, j, d))
  {
    var l2' := WithEntry(l2, base, j, d);
    forall k | 0 <= k < |l1|
      ensures SlotOk(l1, l2', k)
    {
      assert SlotOk(l1, l2, k);
    }
  }

  // ---------------------------------------------------------------- a section

  /** A section descriptor changes the translation of its own megabyte and of nothing else. */
  lemma SectionWalks(l1: seq<Word>, l2: Tables, va0: int, d: Word, va: int)
    requires TablesOk(l1, l2) && 0 <= va0 < W && 0 <= va < W && va0 % SECTION_SIZE == 0 && d % 4 == 2
    ensures 0 <= L1Index(va0) < |l1|
    ensures Walk(l1[L1Index(va0) := d], l2, va)
            == if va0 <= va < va0 + SECTION_SIZE then ReadSection(d, va) else Walk(l1, l2, va)
  {
    hide ReadPage;
    hide ReadSection;
    IndexBounds(va0);
    IndexBounds(va);
    SameSection(va0, va);
  }

  lemma SameSection(va0: int, va: int)
    requires va0 % SECTION_SIZE == 0
    ensures L1Index(va) == L1Index(va0) <==> va0 <= va < va0 + SECTION_SIZE
  {
    var p, q := va0 / SECTION_SIZE, va / SECTION_SIZE;
    assert va0 == SECTION_SIZE * p && va == SECTION_SIZE * q + va % SECTION_SIZE;
  }

  lemma SectionOk(l1: seq<Word>, l2: Tables, i: int, d: Word)
    requires TablesOk(l1, l2) && 0 <= i < |l1| && d % 4 == 2
    ensures TablesOk(l1[i := d], l2)
  {
    var l1' := l1[i := d];
    forall k | 0 <= k < |l1'|
      ensures SlotOk(l1', l2, k)
    {
      assert SlotOk(l1, l2, k);
    }
    forall j, k | 0 <= j < |l1'| && 0 <= k < |l1'|
      ensures SlotsApart(l1', j, k)
    {
      assert SlotsApart(l1, j, k);
    }
  }
}
