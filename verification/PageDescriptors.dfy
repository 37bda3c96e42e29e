/**
  Descriptors of the ARM short-descriptor translation tables: what the kernel writes, and how the hardware reads it
  (section B3.5.1 of the ARM Architecture Reference Manual, ARMv7-A and ARMv7-R edition).
 */
module PageDescriptors {
  import opened Words
  import opened Arithmetic

  const PAGE_SIZE: int := 4096
  const SECTION_SIZE: int := 0x10_0000
  const NUM_L1_ENTRIES: int := 4096
  const NUM_L2_ENTRIES: int := 256

  datatype MemoryType = Device | Ram
  datatype Privilege = NoPrivilege | UserAccess | KernelAccess | AllAccess
  datatype Access = NoAccess | ReadOnly | ReadWrite

  /** A mapping of `size` bytes of virtual memory to real memory. */
  datatype MemSection = MemSection(phys: Word, virt: Word, size: Word, memType: MemoryType, priv: Privilege,
      access: Access)

  /** The attribute fields of a descriptor. */
  datatype Attributes = Attributes(ap: int, apx: int, tex: int, cached: int, buffered: int, shared: int,
      notGlobal: int, neverExecute: int)

  datatype Translation = Fault | Mapped(phys: int, attributes: Attributes)

  function ApBits(priv: Privilege): (ap: int)
    ensures 0 <= ap <= 3
  {
    match priv
    case NoPrivilege => 0
    case UserAccess => 3
    case KernelAccess => 1
    case AllAccess => 3
  }

  function AsBit(b: bool): (r: int)
    ensures 0 <= r <= 1
  {
    if b then 1 else 0
  }

  /** The attributes a mapping asks for. */
  function Requested(s: MemSection): Attributes {
    Attributes(ApBits(s.priv), AsBit(s.access == ReadOnly), 1, AsBit(s.memType == Ram), AsBit(s.memType == Ram), 0, 1,
        0)
  }

  predicate FieldsOk(a: Attributes) {
    && 0 <= a.ap <= 3 && 0 <= a.apx <= 1 && 0 <= a.tex <= 7 && 0 <= a.cached <= 1 && 0 <= a.buffered <= 1
    && 0 <= a.shared <= 1 && 0 <= a.notGlobal <= 1 && 0 <= a.neverExecute <= 1
  }

  // ---------------------------------------------------------------- what the attributes grant

  /** What a mode may do with a page. */
  datatype Rights = None | Read | ReadAndWrite

  /**
    The table of access permissions AP[2:0] (section B3.7.1), for privileged modes; AP[2] is `apx`.  The reserved
    encoding 0b100 counts as no access.
   */
  function PrivilegedRights(a: Attributes): Rights {
    match (a.apx, a.ap)
    case (0, 1) => ReadAndWrite
    case (0, 2) => ReadAndWrite
    case (0, 3) => ReadAndWrite
    case (1, 1) => Read
    case (1, 2) => Read
    case (1, 3) => Read
    case _ => None
  }

  /** The same for user mode. */
  function UserRights(a: Attributes): Rights {
    match (a.apx, a.ap)
    case (0, 2) => Read
    case (0, 3) => ReadAndWrite
    case (1, 2) => Read
    case (1, 3) => Read
    case _ => None
  }

  datatype MemoryKind = StronglyOrdered | DeviceMemory | Uncached | WriteThrough | WriteBack | OtherKind

  /** The memory type by TEX, C and B without TEX remap (section B3.8.2). */
  function KindOf(a: Attributes): MemoryKind {
    match (a.tex, a.cached, a.buffered)
    case (0, 0, 0) => StronglyOrdered
    case (0, 0, 1) => DeviceMemory
    case (2, 0, 0) => DeviceMemory
    case (0, 1, 0) => WriteThrough
    case (0, 1, 1) => WriteBack
    case (1, 0, 0) => Uncached
    case (1, 1, 1) => WriteBack
    case _ => OtherKind
  }

  /** The rights a mapping is to grant. */
  ghost predicate Grants(a: Attributes, s: MemSection) {
    && (UserRights(a) == None <==> s.priv != UserAccess && s.priv != AllAccess)
    && (PrivilegedRights(a) == None <==> s.priv == NoPrivilege)
    && (UserRights(a) == ReadAndWrite <==> (s.priv == UserAccess || s.priv == AllAccess) && s.access != ReadOnly)
    && (PrivilegedRights(a) == ReadAndWrite <==> s.priv != NoPrivilege && s.access != ReadOnly)
    && (KindOf(a) == WriteBack <==> s.memType == Ram) && (KindOf(a) == Uncached <==> s.memType == Device)
    && a.shared == 0 && a.notGlobal == 1 && a.neverExecute == 0
  }

  /**
    The attributes of a mapping grant what its privilege and access say.  Memory of devices is mapped as uncached normal
    memory, never as device memory.
   */
  lemma RequestedGrants(s: MemSection)
    ensures Grants(Requested(s), s) && KindOf(Requested(s)) != DeviceMemory && KindOf(Requested(s)) != StronglyOrdered
    ensures Requested(s).apx == 1 && Requested(s).ap == 0 <==> s.priv == NoPrivilege && s.access == ReadOnly
    ensures Requested(s).shared == 0 && Requested(s).notGlobal == 1 && Requested(s).neverExecute == 0
  {
  }

  // ---------------------------------------------------------------- what the kernel writes

  /** The first-level descriptor of a second-level table; no ECC, domain 0, secure. */
  function CoarseDescriptor(base: Word): int {
    1 + base / 1024 * 1024
  }

  /** The first-level descriptor of a 1MB section; no ECC, domain 0. */
  function SectionDescriptor(phys: Word, a: Attributes): int {
    2 + a.buffered * 4 + a.cached * 8 + a.neverExecute * 16 + a.ap * 1024 + a.tex * 4096 + a.apx * 0x8000
        + a.shared * 0x1_0000
    + a.notGlobal * 0x2_0000 + phys / SECTION_SIZE * SECTION_SIZE
  }

  /** The second-level descriptor of a 4K page, executable. */
  function PageDescriptor(phys: Word, a: Attributes): int {
    2 + a.buffered * 4 + a.cached * 8 + a.ap * 16 + a.tex * 64 + a.apx * 512 + a.shared * 1024 + a.notGlobal * 2048
    + phys / PAGE_SIZE * PAGE_SIZE
  }

  /** Descriptors of both kinds, bit for bit. */
  lemma DescriptorWords()
    ensures SectionDescriptor(0xABC0_0000, Attributes(1, 0, 1, 1, 1, 0, 1, 0)) == 0xABC2_140E
    ensures SectionDescriptor(0xABCF_FFFF, Attributes(2, 1, 4, 0, 1, 0, 0, 1)) == 0xABC0_C816
    ensures SectionDescriptor(0, Attributes(0, 0, 0, 1, 0, 1, 0, 0)) == 0x0001_000A
    ensures PageDescriptor(0xABCD_E000, Attributes(1, 0, 1, 1, 1, 0, 1, 0)) == 0xABCD_E85E
    ensures PageDescriptor(0xABCD_EFFF, Attributes(2, 1, 4, 0, 1, 0, 0, 0)) == 0xABCD_E326
    ensures PageDescriptor(0, Attributes(0, 0, 0, 1, 0, 1, 0, 0)) == 0x0000_040A
    ensures CoarseDescriptor(0xABCD_EC00) == 0xABCD_EC01
  {
  }

  // ---------------------------------------------------------------- what the hardware reads

  /** `width` bits of `d` from bit `low` on, as a quotient and a remainder by powers of two. */
  function Field(d: int, low: int, width: int): int
    requires low > 0 && width > 0
  {
    d / low % width
  }

  /** A section, or a 16MB supersection when bit 18 is set. */
  function ReadSection(d: int, va: int): Translation {
    Mapped(
      if Field(d, 0x4_0000, 2) == 1 then d / 0x100_0000 * 0x100_0000 + va % 0x100_0000
      else d / SECTION_SIZE * SECTION_SIZE + va % SECTION_SIZE,
      Attributes(Field(d, 1024, 4), Field(d, 0x8000, 2), Field(d, 4096, 8), Field(d, 8, 2), Field(d, 4, 2),
                 Field(d, 0x1_0000, 2), Field(d, 0x2_0000, 2), Field(d, 16, 2)))
  }

  /** A 64K or a 4K page. */
  function ReadPage(d: int, va: int): Translation {
    if d % 4 == 0 then Fault
    else if d % 4 == 1 then
      Mapped(d / 0x1_0000 * 0x1_0000 + va % 0x1_0000,
             Attributes(Field(d, 16, 4), Field(d, 512, 2), Field(d, 4096, 8), Field(d, 8, 2), Field(d, 4, 2),
                        Field(d, 1024, 2), Field(d, 2048, 2), Field(d, 0x8000, 2)))
    else
      Mapped(d / PAGE_SIZE * PAGE_SIZE + va % PAGE_SIZE,
             Attributes(Field(d, 16, 4), Field(d, 512, 2), Field(d, 64, 8), Field(d, 8, 2), Field(d, 4, 2),
                        Field(d, 1024, 2), Field(d, 2048, 2), d % 2))
  }

  // ---------------------------------------------------------------- reading back what was written

  /** A field above a smaller part. */
  lemma FieldIs(d: int, part: int, low: int, f: int, width: int, rest: int)
    requires 0 <= part < low && 0 <= f < width && d == part + low * (f + width * rest)
    ensures Field(d, low, width) == f
  {
    Peel(part, low, f + width * rest);
    Peel(f, width, rest);
  }

  lemma LowBits(d: int, rest: int)
    requires d == 2 + 4 * rest
    ensures d % 4 == 2 && d % 2 == 0
  {
    Peel(2, 4, rest);
    Peel(0, 2, 1 + 2 * rest);
  }

  lemma TopOf(d: int, part: int, low: int, top: int)
    requires 0 <= part < low && d == part + low * top
    ensures d / low == top
  {
    Peel(part, low, top);
  }

  lemma BaseOf(phys: Word, size: int)
    requires size > 0
    ensures 0 <= phys / size * size <= phys < phys / size * size + size && phys / size >= 0
  {
    assert phys == size * (phys / size) + phys % size;
  }

  lemma SectionFields(n: int, a: Attributes, d: int)
    requires FieldsOk(a) && 0 <= n < 4096
    requires d == 2 + a.buffered * 4 + a.cached * 8 + a.neverExecute * 16 + a.ap * 1024 + a.tex * 4096 + a.apx * 0x8000
                  + a.shared * 0x1_0000 + a.notGlobal * 0x2_0000 + n * 0x10_0000
    ensures 0 <= d < W && d % 4 == 2 && d / 0x10_0000 == n && Field(d, 0x4_0000, 2) == 0
    ensures Field(d, 1024, 4) == a.ap && Field(d, 0x8000, 2) == a.apx && Field(d, 4096, 8) == a.tex
            && Field(d, 8, 2) == a.cached
    ensures Field(d, 4, 2) == a.buffered && Field(d, 0x1_0000, 2) == a.shared && Field(d, 0x2_0000, 2) == a.notGlobal
    ensures Field(d, 16, 2) == a.neverExecute
  {
    hide Field;
    var r18 := 4 * n;
    var r17 := a.notGlobal + 2 * r18;
    var r16 := a.shared + 2 * r17;
    var r15 := a.apx + 2 * r16;
    var r12 := a.tex + 8 * r15;
    var r10 := a.ap + 4 * r12;
    var r4 := a.neverExecute + 64 * r10;
    var r3 := a.cached + 2 * r4;
    var r2 := a.buffered + 2 * r3;
    LowBits(d, r2);
    TopOf(d, d - 0x10_0000 * n, 0x10_0000, n);
    FieldIs(d, 2, 4, a.buffered, 2, r3);
    FieldIs(d, 2 + 4 * a.buffered, 8, a.cached, 2, r4);
    FieldIs(d, 2 + 4 * a.buffered + 8 * a.cached, 16, a.neverExecute, 2, 32 * r10);
    var p10 := 2 + 4 * a.buffered + 8 * a.cached + 16 * a.neverExecute;
    FieldIs(d, p10, 1024, a.ap, 4, r12);
    var p12 := p10 + 1024 * a.ap;
    FieldIs(d, p12, 4096, a.tex, 8, r15);
    var p15 := p12 + 4096 * a.tex;
    FieldIs(d, p15, 0x8000, a.apx, 2, r16);
    var p16 := p15 + 0x8000 * a.apx;
    FieldIs(d, p16, 0x1_0000, a.shared, 2, r17);
    var p17 := p16 + 0x1_0000 * a.shared;
    FieldIs(d, p17, 0x2_0000, a.notGlobal, 2, r18);
    FieldIs(d, p17 + 0x2_0000 * a.notGlobal, 0x4_0000, 0, 2, 2 * n);
  }

  lemma PageFields(n: int, a: Attributes, d: int)
    requires FieldsOk(a) && 0 <= n < 0x10_0000 && a.neverExecute == 0
    requires d == 2 + a.buffered * 4 + a.cached * 8 + a.ap * 16 + a.tex * 64 + a.apx * 512 + a.shared * 1024
             + a.notGlobal * 2048
                  + n * 4096
    ensures 0 <= d < W && d % 4 == 2 && d % 2 == 0 && d / 4096 == n
    ensures Field(d, 16, 4) == a.ap && Field(d, 512, 2) == a.apx && Field(d, 64, 8) == a.tex
            && Field(d, 8, 2) == a.cached
    ensures Field(d, 4, 2) == a.buffered && Field(d, 1024, 2) == a.shared && Field(d, 2048, 2) == a.notGlobal
  {
    hide Field;
    var r11 := a.notGlobal + 2 * n;
    var r10 := a.shared + 2 * r11;
    var r9 := a.apx + 2 * r10;
    var r6 := a.tex + 8 * r9;
    var r4 := a.ap + 4 * r6;
    var r3 := a.cached + 2 * r4;
    var r2 := a.buffered + 2 * r3;
    LowBits(d, r2);
    TopOf(d, d - 4096 * n, 4096, n);
    FieldIs(d, 2, 4, a.buffered, 2, r3);
    FieldIs(d, 2 + 4 * a.buffered, 8, a.cached, 2, r4);
    var p4 := 2 + 4 * a.buffered + 8 * a.cached;
    FieldIs(d, p4, 16, a.ap, 4, r6);
    FieldIs(d, p4 + 16 * a.ap, 64, a.tex, 8, r9);
    var p9 := p4 + 16 * a.ap + 64 * a.tex;
    FieldIs(d, p9, 512, a.apx, 2, r10);
    FieldIs(d, p9 + 512 * a.apx, 1024, a.shared, 2, r11);
    FieldIs(d, p9 + 512 * a.apx + 1024 * a.shared, 2048, a.notGlobal, 2, n);
  }

  /** The hardware reads a section descriptor as the kernel meant it: base and every attribute. */
  lemma SectionReads(phys: Word, a: Attributes, va: int)
    requires FieldsOk(a)
    ensures var d := SectionDescriptor(phys, a);
            && 0 <= d < W && d % 4 == 2
            && ReadSection(d, va) == Mapped(phys / SECTION_SIZE * SECTION_SIZE + va % SECTION_SIZE, a)
  {
    hide Field;
    var n := phys / SECTION_SIZE;
    BaseOf(phys, SECTION_SIZE);
    SectionFields(n, a, SectionDescriptor(phys, a));
  }

  /** The hardware reads a page descriptor as the kernel meant it. */
  lemma PageReads(phys: Word, a: Attributes, va: int)
    requires FieldsOk(a) && a.neverExecute == 0
    ensures var d := PageDescriptor(phys, a);
            && 0 <= d < W && ReadPage(d, va) == Mapped(phys / PAGE_SIZE * PAGE_SIZE + va % PAGE_SIZE, a)
  {
    hide Field;
    var n := phys / PAGE_SIZE;
    BaseOf(phys, PAGE_SIZE);
    PageFields(n, a, PageDescriptor(phys, a));
  }

  /** A table address survives in its first-level descriptor if it is aligned. */
  lemma CoarseReads(base: Word)
    requires base % 4096 == 0
    ensures var d := CoarseDescriptor(base);
            && 0 <= d < W && d % 4 == 1 && d / 1024 * 1024 == base && d / 4096 * 4096 == base && d != 0
  {
    var n := base / 4096;
    assert base == 4096 * n;
    Peel(0, 1024, 4 * n);
    var d := CoarseDescriptor(base);
    assert d == 1 + 4096 * n;
    Peel(1, 1024, 4 * n);
    Peel(1, 4096, n);
    Peel(1, 4, 1024 * n);
  }
}
