/** Which addresses a mapping reaches, where it takes them, and how far a mapping in progress has come. */
module PageMapping {
  import opened Words
  import opened Arithmetic
  import opened PageDescriptors
  import opened PageWalk

  /** `arm_is_1mb_section`, in 32-bit arithmetic: [start, end) begins with a whole megabyte. */
  predicate IsMegabyte(start: Word, end: Word) {
    start % SECTION_SIZE == 0 && end >= (start + SECTION_SIZE) % W
  }

  /** The number of pages of a mapping, the last one perhaps in part. */
  function PageCount(size: Word): (n: int)
    ensures size <= n * PAGE_SIZE < size + PAGE_SIZE
  {
    size / PAGE_SIZE + (if size % PAGE_SIZE != 0 then 1 else 0)
  }

  function EndOf(ms: MemSection): int { ms.virt + PageCount(ms.size) * PAGE_SIZE }

  /** Page-aligned, and within the virtual address space. */
  predicate Mappable(ms: MemSection) {
    ms.virt % PAGE_SIZE == 0 && ms.phys % PAGE_SIZE == 0 && EndOf(ms) <= W
  }

  predicate InRange(ms: MemSection, va: int) { ms.virt <= va < EndOf(ms) }

  function SectionBase(va: int): int { va / SECTION_SIZE * SECTION_SIZE }

  /** The megabyte at `s` is mapped by one section descriptor. */
  predicate Sectioned(ms: MemSection, s: int) {
    0 <= s < W && s % SECTION_SIZE == 0 && InRange(ms, s) && IsMegabyte(s, EndOf(ms) % W)
  }

  /** The address is one whose translation the mapping sets. */
  predicate Affected(ms: MemSection, va: int) {
    InRange(ms, va) || Sectioned(ms, SectionBase(va))
  }

  /** The real address the mapping gives to `va`. */
  function Target(ms: MemSection, va: int): int {
    if Sectioned(ms, SectionBase(va)) then
      (ms.phys + SectionBase(va) - ms.virt) % W / SECTION_SIZE * SECTION_SIZE + va % SECTION_SIZE
    else (ms.phys + va - ms.virt) % W
  }

  // ---------------------------------------------------------------- when the mapping is the one asked for

  lemma BaseFacts(va: int)
    ensures SectionBase(va) % SECTION_SIZE == 0 && SectionBase(va) <= va < SectionBase(va) + SECTION_SIZE
    ensures va == SectionBase(va) + va % SECTION_SIZE
  {
    var q := va / SECTION_SIZE;
    assert va == SECTION_SIZE * q + va % SECTION_SIZE;
    Peel(0, SECTION_SIZE, q);
  }

  lemma SameBase(s: int, va: int)
    requires s % SECTION_SIZE == 0
    ensures SectionBase(va) == s <==> s <= va < s + SECTION_SIZE
  {
    var p := s / SECTION_SIZE;
    assert s == SECTION_SIZE * p;
    BaseFacts(va);
    if s <= va < s + SECTION_SIZE {
      Peel(va - s, SECTION_SIZE, p);
    }
  }

  /** Congruence modulo a divisor of 2^32 survives 32-bit arithmetic. */
  lemma ModMod(x: int, m: int, k: int)
    requires m > 0 && W == m * k
    ensures x % W % m == x % m
  {
    var q := x / W;
    var y := x % W;
    assert x == W * q + y;
    var r := y / m;
    assert y == m * r + y % m;
    assert W * q == m * (k * q);
    assert m * (k * q + r) == m * (k * q) + m * r;
    Peel(y % m, m, k * q + r);
  }

  /**
    Every address of the range goes to its offset from the real base exactly when no megabyte of it is mapped by a
    section descriptor, or the real and the virtual base are congruent modulo a megabyte.
   */
  lemma TargetExact(ms: MemSection)
    requires Mappable(ms)
    ensures (forall va :: InRange(ms, va) ==> Target(ms, va) == (ms.phys + va - ms.virt) % W)
            <==> ((exists s :: Sectioned(ms, s)) ==> (ms.phys - ms.virt) % SECTION_SIZE == 0)
  {
    hide Sectioned;
    hide SectionBase;
    if (ms.phys - ms.virt) % SECTION_SIZE == 0 {
      forall va | InRange(ms, va)
        ensures Target(ms, va) == (ms.phys + va - ms.virt) % W
      {
        CongruentTarget(ms, va);
      }
    } else if s :| Sectioned(ms, s) {
      SectionedFacts(ms, s);
      SameBase(s, s);
      ModMod(ms.phys + s - ms.virt, SECTION_SIZE, 4096);
      ShiftMod(ms.phys - ms.virt, s);
      assert s % SECTION_SIZE == 0;
      assert Target(ms, s) % SECTION_SIZE == 0 by {
        Peel(0, SECTION_SIZE, (ms.phys + s - ms.virt) % W / SECTION_SIZE);
      }
    } else {
      forall va | InRange(ms, va)
        ensures Target(ms, va) == (ms.phys + va - ms.virt) % W
      {
        assert !Sectioned(ms, SectionBase(va));
      }
    }
  }

  lemma SectionedFacts(ms: MemSection, s: int)
    requires Sectioned(ms, s)
    ensures 0 <= s < W && s % SECTION_SIZE == 0 && InRange(ms, s)
  {
  }

  lemma ShiftMod(x: int, s: int)
    requires s % SECTION_SIZE == 0
    ensures (x + s) % SECTION_SIZE == x % SECTION_SIZE
  {
    var q := x / SECTION_SIZE;
    var p := s / SECTION_SIZE;
    assert x == SECTION_SIZE * q + x % SECTION_SIZE && s == SECTION_SIZE * p;
    Peel(x % SECTION_SIZE, SECTION_SIZE, q + p);
  }

  lemma CongruentTarget(ms: MemSection, va: int)
    requires (ms.phys - ms.virt) % SECTION_SIZE == 0
    ensures Target(ms, va) == (ms.phys + va - ms.virt) % W
  {
    hide Sectioned;
    hide SectionBase;
    BaseFacts(va);
    var x := ms.phys + SectionBase(va) - ms.virt;
    ShiftMod(ms.phys - ms.virt, SectionBase(va));
    ModMod(x, SECTION_SIZE, 4096);
    AddWithin(x, va % SECTION_SIZE, SECTION_SIZE, 4096);
  }

  /** Adding less than the alignment does not wrap. */
  lemma AddWithin(x: int, d: int, m: int, k: int)
    requires m > 0 && W == m * k && x % W % m == 0 && 0 <= d < m
    ensures x % W / m * m == x % W && (x + d) % W == x % W + d
  {
    var q := x / W;
    var y := x % W;
    var r := y / m;
    assert y == m * r && x == W * q + y;
    NextMultiple(m, r, k);
    Peel(y + d, W, q);
  }

  lemma MulSign(w: int, d: int)
    requires w > 0
    ensures d >= 0 ==> w * d >= 0
  {
  }

  lemma NextMultiple(m: int, r: int, k: int)
    requires m > 0 && m * r < m * k
    ensures m * r + m <= m * k
  {
    assert m * (r - k) == m * r - m * k;
    MulSign(m, r - k);
    assert m * (k - r - 1) == m * k - m * r - m;
    MulSign(m, k - r - 1);
  }

  /**
    Only the range itself is mapped, unless it ends inside the last megabyte after its start: that one is mapped whole.
   */
  lemma RangeExact(ms: MemSection)
    requires Mappable(ms)
    ensures (forall va :: 0 <= va < W && Affected(ms, va) ==> InRange(ms, va))
            <==> !(ms.virt <= 0xFFF0_0000 < EndOf(ms) < W)
  {
    hide SectionBase;
    hide PageCount;
    if ms.virt <= 0xFFF0_0000 < EndOf(ms) < W {
      var va := W - 1;
      SameBase(0xFFF0_0000, va);
      assert Sectioned(ms, 0xFFF0_0000);
      assert Affected(ms, va) && !InRange(ms, va);
    } else {
      forall va | 0 <= va < W && Affected(ms, va)
        ensures InRange(ms, va)
      {
        BaseFacts(va);
        WholeSections(ms, SectionBase(va));
      }
    }
  }

  lemma WholeSections(ms: MemSection, s: int)
    requires Mappable(ms) && !(ms.virt <= 0xFFF0_0000 < EndOf(ms) < W)
    ensures Sectioned(ms, s) ==> s + SECTION_SIZE <= EndOf(ms)
  {
    hide PageCount;
    if Sectioned(ms, s) && s + SECTION_SIZE > W {
      LastMegabyte(s);
    }
  }

  lemma LastMegabyte(s: int)
    requires 0 <= s < W && s % SECTION_SIZE == 0
    ensures s + SECTION_SIZE <= W
  {
    var p := s / SECTION_SIZE;
    assert s == SECTION_SIZE * p;
  }

  /** The kernel's own mapping of its memory, real page 1 at virtual page 0: its sections ignore the shift. */
  lemma ShiftedRam(ms: MemSection)
    requires ms.phys == PAGE_SIZE && ms.virt == 0 && SECTION_SIZE <= ms.size < W - PAGE_SIZE
    ensures Mappable(ms) && Target(ms, 0) == 0 && (ms.phys + 0 - ms.virt) % W == PAGE_SIZE
  {
    assert Sectioned(ms, 0);
  }

  // ---------------------------------------------------------------- a mapping in progress

  /** The translation of `va` when the mapping has come as far as `v`. */
  ghost predicate MappedTo(l1: seq<Word>, l2: Tables, was1: seq<Word>, was2: Tables, ms: MemSection, v: int, va: int) {
    Walk(l1, l2, va) == if Affected(ms, va) && va < v then Mapped(Target(ms, va), Requested(ms))
        else Walk(was1, was2, va)
  }

  ghost predicate Progress(l1: seq<Word>, l2: Tables, was1: seq<Word>, was2: Tables, ms: MemSection, v: int) {
    forall va {:trigger MappedTo(l1, l2, was1, was2, ms, v, va)} :: 0 <= va < W ==>
          MappedTo(l1, l2, was1, was2, ms, v, va)
  }

  /** The mapping stands at a page, and not inside a megabyte that goes into one section descriptor. */
  ghost predicate CursorOk(ms: MemSection, v: int) {
    ms.virt <= v && v % PAGE_SIZE == 0 && (Sectioned(ms, SectionBase(v)) ==> v == SectionBase(v))
  }

  ghost predicate PlainSlot(l1: seq<Word>, i: int) {
    0 <= i < |l1| && (l1[i] == 0 || IsCoarse(l1[i]))
  }

  /** Where the mapping uses pages, the first level is empty or has a second-level table. */
  ghost predicate SlotsFree(l1: seq<Word>, ms: MemSection) {
    forall v :: 0 <= v < W && InRange(ms, v) && !Sectioned(ms, SectionBase(v)) ==> PlainSlot(l1, L1Index(v))
  }

  lemma ProgressStart(l1: seq<Word>, l2: Tables, ms: MemSection)
    requires Mappable(ms)
    ensures Progress(l1, l2, l1, l2, ms, ms.virt) && CursorOk(ms, ms.virt)
  {
    hide PageCount;
    hide Walk;
    forall va | 0 <= va < W
      ensures MappedTo(l1, l2, l1, l2, ms, ms.virt, va)
    {
      BaseFacts(va);
    }
    BaseFacts(ms.virt);
  }

  /** The physical address of the page at `v`. */
  function PageTarget(ms: MemSection, v: int): Word { (ms.phys + v - ms.virt) % W }

  lemma AlignedTarget(ms: MemSection, v: int, va: int)
    requires Mappable(ms) && v % PAGE_SIZE == 0 && v <= va < v + PAGE_SIZE
    ensures PageTarget(ms, v) / PAGE_SIZE * PAGE_SIZE + va % PAGE_SIZE == (ms.phys + va - ms.virt) % W
  {
    hide PageCount;
    var x := ms.phys + v - ms.virt;
    var a, b, c := ms.phys / PAGE_SIZE, v / PAGE_SIZE, ms.virt / PAGE_SIZE;
    assert x == PAGE_SIZE * (a + b - c);
    Peel(0, PAGE_SIZE, a + b - c);
    ModMod(x, PAGE_SIZE, 0x10_0000);
    Peel(va - v, PAGE_SIZE, b);
    AddWithin(x, va - v, PAGE_SIZE, 0x10_0000);
  }

  /** One page further. */
  lemma ProgressPage(l1: seq<Word>, l2: Tables, l1': seq<Word>, l2': Tables, was1: seq<Word>, was2: Tables,
                     ms: MemSection, v: int)
    requires Mappable(ms) && Progress(l1, l2, was1, was2, ms, v) && CursorOk(ms, v) && v < EndOf(ms)
    requires !Sectioned(ms, SectionBase(v))
    requires forall va {:trigger Walk(l1', l2', va)} :: 0 <= va < W ==>
               Walk(l1', l2', va) == if v <= va < v + PAGE_SIZE
                   then ReadPage(PageDescriptor(PageTarget(ms, v), Requested(ms)), va)
                                     else Walk(l1, l2, va)
    ensures Progress(l1', l2', was1, was2, ms, v + PAGE_SIZE) && CursorOk(ms, v + PAGE_SIZE)
            && v + PAGE_SIZE <= EndOf(ms)
  {
    hide Walk;
    hide ReadPage;
    hide PageDescriptor;
    hide Sectioned;
    hide PageTarget;
    hide SectionBase;
    PageRoom(ms, v);
    CursorStep(ms, v);
    var v' := v + PAGE_SIZE;
    forall va | 0 <= va < W
      ensures MappedTo(l1', l2', was1, was2, ms, v', va)
    {
      assert MappedTo(l1, l2, was1, was2, ms, v, va);
      if v <= va < v + PAGE_SIZE {
        PageReads(PageTarget(ms, v), Requested(ms), va);
        AlignedTarget(ms, v, va);
        SameSlot(ms, v, va);
      }
    }
  }

  lemma PageRoom(ms: MemSection, v: int)
    requires Mappable(ms) && v % PAGE_SIZE == 0 && v < EndOf(ms)
    ensures v + PAGE_SIZE <= EndOf(ms)
  {
    var a, b := v / PAGE_SIZE, ms.virt / PAGE_SIZE;
    assert v == PAGE_SIZE * a && EndOf(ms) == PAGE_SIZE * (b + PageCount(ms.size));
  }

  /** A page does not straddle megabytes. */
  lemma PageInside(v: int)
    requires v % PAGE_SIZE == 0
    ensures v + PAGE_SIZE <= SectionBase(v) + SECTION_SIZE
    ensures SectionBase(v + PAGE_SIZE) == SectionBase(v) || SectionBase(v + PAGE_SIZE) == v + PAGE_SIZE
  {
    hide SectionBase;
    var q, r := PageSplit(v);
    var s := SECTION_SIZE * q;
    Peel(0, SECTION_SIZE, q);
    Peel(0, SECTION_SIZE, q + 1);
    SameBase(s, v);
    SameBase(s, v + PAGE_SIZE);
    SameBase(s + SECTION_SIZE, v + PAGE_SIZE);
  }

  /** The megabyte of a page, and its place there. */
  lemma PageSplit(v: int) returns (q: int, r: int)
    requires v % PAGE_SIZE == 0
    ensures v == SECTION_SIZE * q + PAGE_SIZE * r && 0 <= r < 256
  {
    var a := v / PAGE_SIZE;
    assert v == PAGE_SIZE * a;
    q, r := a / 256, a % 256;
    assert a == 256 * q + r;
  }

  lemma SameSlot(ms: MemSection, v: int, va: int)
    requires v % PAGE_SIZE == 0 && v <= va < v + PAGE_SIZE
    ensures SectionBase(va) == SectionBase(v)
  {
    hide SectionBase;
    PageInside(v);
    BaseFacts(v);
    SameBase(SectionBase(v), va);
  }

  lemma CursorStep(ms: MemSection, v: int)
    requires CursorOk(ms, v) && !Sectioned(ms, SectionBase(v))
    ensures CursorOk(ms, v + PAGE_SIZE)
  {
    hide Sectioned;
    hide SectionBase;
    PageInside(v);
  }

  /** One megabyte further. */
  lemma ProgressSection(l1: seq<Word>, l2: Tables, l1': seq<Word>, was1: seq<Word>, was2: Tables, ms: MemSection,
                        v: int)
    requires Mappable(ms) && Progress(l1, l2, was1, was2, ms, v) && CursorOk(ms, v) && Sectioned(ms, v)
    requires forall va {:trigger Walk(l1', l2, va)} :: 0 <= va < W ==>
               Walk(l1', l2, va) == if v <= va < v + SECTION_SIZE
                   then ReadSection(SectionDescriptor(PageTarget(ms, v), Requested(ms)), va)
                                    else Walk(l1, l2, va)
    ensures Progress(l1', l2, was1, was2, ms, v + SECTION_SIZE) && CursorOk(ms, v + SECTION_SIZE)
  {
    hide Walk;
    hide ReadSection;
    hide SectionDescriptor;
    hide Sectioned;
    hide SectionBase;
    SectionedFacts(ms, v);
    var v' := v + SECTION_SIZE;
    forall va | 0 <= va < W
      ensures MappedTo(l1', l2, was1, was2, ms, v', va)
    {
      assert MappedTo(l1, l2, was1, was2, ms, v, va);
      SameBase(v, va);
      if v <= va < v + SECTION_SIZE {
        SectionReads(PageTarget(ms, v), Requested(ms), va);
      }
    }
    NextSection(v);
  }

  lemma NextSection(v: int)
    requires v % SECTION_SIZE == 0
    ensures (v + SECTION_SIZE) % SECTION_SIZE == 0 && SectionBase(v + SECTION_SIZE) == v + SECTION_SIZE
    ensures (v + SECTION_SIZE) % PAGE_SIZE == 0
  {
    var p := v / SECTION_SIZE;
    assert v == SECTION_SIZE * p;
    Peel(0, SECTION_SIZE, p + 1);
    Peel(0, PAGE_SIZE, 256 * (p + 1));
  }

  /** When the mapping has come to its end, it has reached every address it affects. */
  lemma ProgressDone(ms: MemSection, v: int, va: int)
    requires Mappable(ms) && CursorOk(ms, v) && EndOf(ms) <= v
    ensures Affected(ms, va) ==> va < v
  {
    hide Sectioned;
    hide SectionBase;
    BaseFacts(va);
    BaseFacts(v);
    if Sectioned(ms, SectionBase(va)) {
      SectionedFacts(ms, SectionBase(va));
      SameBase(SectionBase(va), v);
    }
  }

  lemma SlotsKept(l1: seq<Word>, i: int, d: Word, ms: MemSection)
    requires SlotsFree(l1, ms) && 0 <= i < |l1| && IsCoarse(d)
    ensures SlotsFree(l1[i := d], ms)
  {
    forall v | 0 <= v < W && InRange(ms, v) && !Sectioned(ms, SectionBase(v))
      ensures PlainSlot(l1[i := d], L1Index(v))
    {
      assert PlainSlot(l1, L1Index(v));
    }
  }

  lemma SlotsKeptBySection(l1: seq<Word>, v0: int, d: Word, ms: MemSection)
    requires SlotsFree(l1, ms) && Sectioned(ms, v0) && 0 <= L1Index(v0) < |l1|
    ensures SlotsFree(l1[L1Index(v0) := d], ms)
  {
    hide Sectioned;
    hide SectionBase;
    SectionedFacts(ms, v0);
    var l1' := l1[L1Index(v0) := d];
    forall v | 0 <= v < W && InRange(ms, v) && !Sectioned(ms, SectionBase(v))
      ensures PlainSlot(l1', L1Index(v))
    {
      assert PlainSlot(l1, L1Index(v));
      SameSection(v0, v);
      SameBase(v0, v);
    }
  }

  // ---------------------------------------------------------------- several mappings

  /** Only the range is mapped, and every address of it to its own offset. */
  ghost predicate Exact(ms: MemSection) {
    && Mappable(ms)
    && !(ms.virt <= 0xFFF0_0000 < EndOf(ms) < W)
    && ((exists s :: Sectioned(ms, s)) ==> (ms.phys - ms.virt) % SECTION_SIZE == 0)
  }

  /** No page in common. */
  predicate PagesApart(a: MemSection, b: MemSection) {
    EndOf(a) <= b.virt || EndOf(b) <= a.virt
  }

  lemma ExactMapping(ms: MemSection, va: int)
    requires Exact(ms) && 0 <= va < W
    ensures Affected(ms, va) <==> InRange(ms, va)
    ensures InRange(ms, va) ==> Target(ms, va) == (ms.phys + va - ms.virt) % W
  {
    hide Target;
    hide Affected;
    hide InRange;
    RangeExact(ms);
    TargetExact(ms);
    RangeAffected(ms, va);
  }

  lemma RangeAffected(ms: MemSection, va: int)
    ensures InRange(ms, va) ==> Affected(ms, va)
  {
  }

  /** A section descriptor of one mapping takes no slot from the pages of another. */
  lemma SlotsKeptApart(l1: seq<Word>, v0: int, d: Word, ms: MemSection, other: MemSection)
    requires SlotsFree(l1, other) && Sectioned(ms, v0) && 0 <= L1Index(v0) < |l1|
    requires Mappable(ms) && !(ms.virt <= 0xFFF0_0000 < EndOf(ms) < W) && PagesApart(ms, other)
    ensures SlotsFree(l1[L1Index(v0) := d], other)
  {
    hide Sectioned;
    hide SectionBase;
    hide PageCount;
    SectionedFacts(ms, v0);
    WholeSections(ms, v0);
    var l1' := l1[L1Index(v0) := d];
    forall v | 0 <= v < W && InRange(other, v) && !Sectioned(other, SectionBase(v))
      ensures PlainSlot(l1', L1Index(v))
    {
      assert PlainSlot(l1, L1Index(v));
      SameSection(v0, v);
    }
  }
}
