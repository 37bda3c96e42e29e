/** The memory sections of a process: a list linked in address order, and the table they are mapped in. */
module ProcessMemory {
  import opened Words
  import opened PageDescriptors
  import opened PageWalk
  import opened PageMapping
  import opened PageTables
  import opened VirtualLayout

  class Section {
    const ms: MemSection
    var next: Section?

    constructor (ms: MemSection)
      ensures this.ms == ms && next == null
    {
      this.ms := ms;
      next := null;
    }
  }

  const KERNEL_ADDRESS_SPACE: Word := 0x8000_0000
  const USER_ADDRESS_SPACE: Word := 0xC000_0000

  /** Node `i` points to the one after it, the last one to nothing. */
  ghost predicate NextOk(nodes: seq<Section>, i: int)
    requires 0 <= i < |nodes|
    reads nodes[i]
  {
    nodes[i].next == if i + 1 < |nodes| then nodes[i + 1] else null
  }

  /** The nodes are linked in order, without repetition. */
  ghost predicate Linked(first: Section?, nodes: seq<Section>)
    reads nodes
  {
    && first == (if |nodes| == 0 then null else nodes[0])
    && (forall i {:trigger NextOk(nodes, i)} :: 0 <= i < |nodes| ==> NextOk(nodes, i))
    && (forall i, j :: 0 <= i < j < |nodes| ==> nodes[i] != nodes[j])
  }

  ghost function Contents(nodes: seq<Section>): (l: seq<MemSection>)
    ensures |l| == |nodes| && forall i :: 0 <= i < |l| ==> l[i] == nodes[i].ms
  {
    seq(|nodes|, i requires 0 <= i < |nodes| => nodes[i].ms)
  }

  lemma ContentsSplice(nodes: seq<Section>, k: nat, n: Section)
    requires k <= |nodes|
    ensures Contents(Spliced(nodes, k, n)) == Spliced(Contents(nodes), k, n.ms)
  {
  }

  lemma ContentsCut(nodes: seq<Section>, k: nat)
    requires k < |nodes|
    ensures Contents(nodes[..k] + nodes[k + 1..]) == Contents(nodes)[..k] + Contents(nodes)[k + 1..]
  {
  }

  class Process {
    const kernelProcess: bool
    var first: Section?
    ghost var nodes: seq<Section>

    function Base(): Word { if kernelProcess then KERNEL_ADDRESS_SPACE else USER_ADDRESS_SPACE }

    ghost predicate Valid()
      reads this, nodes
    {
      Linked(first, nodes)
    }

    constructor (kernelProcess: bool)
      ensures Valid() && nodes == [] && this.kernelProcess == kernelProcess
    {
      this.kernelProcess := kernelProcess;
      first := null;
      nodes := [];
    }

    lemma FirstIs()
      requires Valid()
      ensures first == (if |nodes| == 0 then null else nodes[0])
    {
    }

    lemma NextIs(i: int)
      requires Valid() && 0 <= i < |nodes|
      ensures nodes[i].next == if i + 1 < |nodes| then nodes[i + 1] else null
    {
      assert NextOk(nodes, i);
    }

    /** Links `section` between `prev` and `next`, the nodes before and after place `i`. */
    method LinkIn(prev: Section?, section: Section, next: Section?, ghost i: nat)
      requires Valid() && section !in nodes && i <= |nodes|
      requires prev == (if i > 0 then nodes[i - 1] else null) && next == (if i < |nodes| then nodes[i] else null)
      modifies this, nodes, section
      ensures Valid() && nodes == Spliced(old(nodes), i, section)
    {
      if prev != null {
        prev.next := section;
      } else {
        first := section;
      }
      section.next := next;
      nodes := Spliced(nodes, i, section);
      forall j | 0 <= j < |nodes|
        ensures NextOk(nodes, j)
      {
        var k := if j < i then j else if j > i then j - 1 else 0;
        assert j != i ==> nodes[j] == old(nodes)[k] && old(NextOk(nodes, k));
      }
    }

    /** Links a section in before the first one that starts after it. */
    method AddSection(section: Section)
      requires Valid() && section !in nodes && section.next == null
      modifies this, nodes, section
      ensures Valid()
      ensures nodes == Spliced(old(nodes), InsertAt(Contents(old(nodes)), section.ms.virt), section)
      ensures Contents(nodes) == Spliced(Contents(old(nodes)), InsertAt(Contents(old(nodes)), section.ms.virt),
              section.ms)
    {
      hide InsertAt;
      hide InsertFrom;
      hide Spliced;
      hide Contents;
      hide Linked;
      FirstIs();
      ghost var l := Contents(nodes);
      var s, p: Section? := first, null;
      ghost var i: nat := 0;
      InsertStart(l, section.ms.virt);
      while s != null && section.ms.virt >= s.ms.virt
        modifies {}
        invariant i <= |nodes|
        invariant s == (if i < |nodes| then nodes[i] else null) && p == (if i > 0 then nodes[i - 1] else null)
        invariant InsertFrom(l, i, section.ms.virt)
        decreases |nodes| - i
      {
        InsertNext(l, i, section.ms.virt);
        NextIs(i);
        p := s;
        s := s.next;
        i := i + 1;
      }
      InsertHere(l, i, section.ms.virt);
      ContentsSplice(nodes, i, section);
      LinkIn(p, section, s, i);
    }

    /** Takes a hole of `size` bytes between the sections, or the space after the last one. */
    method AllocateVmem(phys: Word, size: Word, memType: MemoryType, priv: Privilege, access: Access)
                        returns (virt: Word)
      requires Valid()
      modifies this, nodes
      ensures Valid()
      ensures |old(nodes)| == 0 ==> virt == 0 && nodes == []
      ensures |old(nodes)| > 0 ==> virt == Hole(Contents(old(nodes)), Base(), Base(), size).at
      ensures |old(nodes)| > 0 ==>
                Contents(nodes) == Spliced(Contents(old(nodes)), Hole(Contents(old(nodes)), Base(), Base(), size).index,
                                           MemSection(phys, virt, size, memType, priv, access))
      ensures old(Placeable(Contents(nodes), size)) ==> InOwnSpace(virt) && Layout(Contents(nodes))
    {
      hide Spliced;
      hide Base;
      hide InOwnSpace;
      hide Hole;
      hide HoleFrom;
      hide Placeable;
      hide Layout;
      hide Contents;
      hide Linked;
      FirstIs();
      ghost var l := Contents(nodes);
      var start: Word := Base();
      var current, prev: Section? := first, null;
      ghost var i: nat := 0;
      HoleStart(l, Base(), size);
      while current != null && !(current.ms.virt > Base() && current.ms.virt > (start + size) % W)
        modifies {}
        invariant i <= |nodes|
        invariant current == (if i < |nodes| then nodes[i] else null) && prev == (if i > 0 then nodes[i - 1] else null)
        invariant HoleFrom(l, i, Base(), start, size)
        decreases |nodes| - i
      {
        HoleNext(l, i, Base(), start, size);
        start := (current.ms.virt + current.ms.size) % W;
        start := (start + start % PAGE_SIZE) % W;
        NextIs(i);
        prev := current;
        current := current.next;
        i := i + 1;
      }
      virt := 0;
      if current == null {
        HoleLast(l, Base(), start, size);
        if prev == null {
          NeedsBase(l, size);
          return;
        }
        start := (start + start % PAGE_SIZE) % W;
      } else {
        HoleNext(l, i, Base(), start, size);
      }
      var section := new Section(MemSection(phys, start, size, memType, priv, access));
      ContentsSplice(nodes, i, section);
      LinkIn(prev, section, current, i);
      virt := start;
      PlacedWell(l, section.ms);
    }

    /** Sections in order, one of them at the start of the address space, and room for another after each. */
    ghost predicate Placeable(l: seq<MemSection>, size: Word) {
      Layout(l) && NonEmpty(l) && NoWrap(l, size) && HasBase(l, if kernelProcess then 0x8000_0000 else 0xC000_0000)
    }

    /** The address space of a kernel process starts at 2GB, that of a user process at 3GB. */
    predicate InOwnSpace(virt: int) { virt >= if kernelProcess then 0x8000_0000 else 0xC000_0000 }

    lemma NeedsBase(l: seq<MemSection>, size: Word)
      ensures Placeable(l, size) ==> |l| > 0
    {
    }

    lemma PlacedWell(l: seq<MemSection>, ms: MemSection)
      requires |l| > 0 && ms.virt == Hole(l, Base(), Base(), ms.size).at
      ensures Placeable(l, ms.size) ==>
                && Hole(l, Base(), Base(), ms.size).index <= |l| && InOwnSpace(ms.virt)
                && Layout(Spliced(l, Hole(l, Base(), Base(), ms.size).index, ms))
    {
      if Placeable(l, ms.size) {
        AllocatedLayout(l, Base(), ms);
      }
    }

    /**
      Takes a hole that can be mapped exactly, and maps it.  Unless the pool has no second-level table left, its
      addresses are taken to the real memory it was made for, and no other translation changes.
     */
    method AllocateMapped(table: PageTable, phys: Word, size: Word, memType: MemoryType, priv: Privilege,
                          access: Access)
      returns (virt: Word, ghost ok: bool)
      requires Valid() && |nodes| > 0 && table.Valid()
      requires var ms := MemSection(phys, Hole(Contents(nodes), Base(), Base(), size).at, size, memType, priv, access);
               Exact(ms) && SlotsFree(table.lvl1[..], ms)
      modifies this, nodes, table, table.lvl1
      ensures Valid() && table.Valid() && virt == Hole(Contents(old(nodes)), Base(), Base(), size).at
      ensures var ms := MemSection(phys, virt, size, memType, priv, access);
              && Contents(nodes)
                 == Spliced(Contents(old(nodes)), Hole(Contents(old(nodes)), Base(), Base(), size).index, ms)
              && (ok ==> forall va :: 0 <= va < W ==>
                    if InRange(ms, va) then MapsTo(table.lvl1[..], table.l2, ms, va)
                    else Walk(table.lvl1[..], table.l2, va) == Walk(old(table.lvl1[..]), old(table.l2), va))
      ensures !ok ==> table.pool == []
    {
      hide Hole;
      hide Contents;
      hide Linked;
      hide SlotsFree;
      hide Walk;
      virt := AllocateVmem(phys, size, memType, priv, access);
      var ms := MemSection(phys, virt, size, memType, priv, access);
      var done := table.MapMemory(ms);
      ok := done;
      if ok {
        forall va | 0 <= va < W
          ensures if InRange(ms, va) then MapsTo(table.lvl1[..], table.l2, ms, va)
                  else Walk(table.lvl1[..], table.l2, va) == Walk(old(table.lvl1[..]), old(table.l2), va)
        {
          ExactMapping(ms, va);
        }
      }
    }

    /** Unlinks the section that starts at `virt`, unless it is the first. */
    method FreeVmem(virt: Word)
      requires Valid()
      modifies this, nodes
      ensures Valid()
      ensures Contents(nodes) == Freed(Contents(old(nodes)), virt)
    {
      hide IndexOf;
      hide Contents;
      hide Linked;
      FirstIs();
      ghost var l := Contents(nodes);
      var current, prev: Section? := first, null;
      ghost var i: nat := 0;
      while current != null && current.ms.virt != virt
        modifies {}
        invariant i <= |nodes|
        invariant current == (if i < |nodes| then nodes[i] else null) && prev == (if i > 0 then nodes[i - 1] else null)
        invariant forall j :: 0 <= j < i ==> l[j].virt != virt
        decreases |nodes| - i
      {
        NextIs(i);
        prev := current;
        current := current.next;
        i := i + 1;
      }
      assert IndexOf(l, virt) == i;
      if current != null && prev != null {
        ContentsCut(nodes, i);
        Unlink(prev, current, i);
      }
    }

    /** Unlinks `current`, the node at place `i`, from `prev`, the one before it. */
    method Unlink(prev: Section, current: Section, ghost i: nat)
      requires Valid() && 0 < i < |nodes| && prev == nodes[i - 1] && current == nodes[i]
      modifies this, prev
      ensures Valid() && nodes == old(nodes)[..i] + old(nodes)[i + 1..]
    {
      prev.next := current.next;
      assert NextOk(nodes, i);
      nodes := nodes[..i] + nodes[i + 1..];
      forall j | 0 <= j < |nodes|
        ensures NextOk(nodes, j)
      {
        var k := if j < i then j else j + 1;
        assert nodes[j] == old(nodes)[k] && old(NextOk(nodes, k));
      }
    }

    /** Translates a virtual address by the sections, or by the pool if none holds it. */
    method Translate(virt: Word, poolStart: Word) returns (phys: Word)
      requires Valid()
      ensures phys == VirtToReal(Contents(nodes), virt, Base(), poolStart)
    {
      hide VirtToReal;
      hide Contents;
      hide Linked;
      FirstIs();
      ghost var l := Contents(nodes);
      phys := virt;
      var found := false;
      var current := first;
      ghost var i: nat := 0;
      assert l[0..] == l;
      while current != null && !found
        invariant i <= |nodes|
        invariant !found ==> phys == virt && current == (if i < |nodes| then nodes[i] else null)
        invariant !found ==> VirtToReal(l, virt, Base(), poolStart) == VirtToReal(l[i..], virt, Base(), poolStart)
        invariant found ==> phys == VirtToReal(l, virt, Base(), poolStart)
        decreases !found, |nodes| - i
      {
        var vstart := current.ms.virt;
        var vend := (vstart + current.ms.size) % W;
        TranslateNext(l, i, virt, Base(), poolStart);
        if virt >= vstart && virt <= vend {
          phys := (current.ms.phys + (virt - vstart)) % W;
          found := true;
        }
        NextIs(i);
        current := current.next;
        i := i + 1;
      }
      if !found {
        TranslateLast(l, virt, Base(), poolStart);
        if phys >= Base() {
          phys := phys - Base();
        }
        phys := (phys + poolStart) % W;
      }
    }

    /** Maps every section in the process's table; a mapping that fails goes unnoticed. */
    method InitialiseTable(table: PageTable) returns (ghost ok: bool)
      requires Valid() && table.Valid() && MappableAll(Contents(nodes), table.lvl1[..])
      modifies table, table.lvl1
      ensures table.Valid()
      ensures ok ==> forall i, va :: 0 <= i < |nodes| && InRange(Contents(nodes)[i], va) ==>
                MapsTo(table.lvl1[..], table.l2, Contents(nodes)[i], va)
      ensures !ok ==> table.pool == []
    {
      hide Contents;
      hide Linked;
      FirstIs();
      ghost var l := Contents(nodes);
      assert ExactAll(l);
      ok := true;
      var section := first;
      ghost var k: nat := 0;
      while section != null
        invariant k <= |nodes| && section == (if k < |nodes| then nodes[k] else null)
        invariant table.Valid() && (!ok ==> table.pool == [])
        invariant forall i :: k <= i < |l| ==> SlotsFree(table.lvl1[..], l[i])
        invariant ok ==> forall i, va :: 0 <= i < k && InRange(l[i], va) ==> MapsTo(table.lvl1[..], table.l2, l[i], va)
        decreases |nodes| - k
      {
        ghost var was1, was2 := table.lvl1[..], table.l2;
        var done := table.MapMemory(section.ms);
        OthersNext(l, k, was1, table.lvl1[..]);
        if ok && done {
          MappedNext(l, k, was1, was2, table.lvl1[..], table.l2);
        }
        ok := ok && done;
        NextIs(k);
        section := section.next;
        k := k + 1;
      }
    }
  }

  ghost predicate MapsTo(l1: seq<Word>, l2: Tables, ms: MemSection, va: int) {
    Walk(l1, l2, va) == Mapped(Own(ms, va), Requested(ms))
  }

  /** Each section can be mapped exactly, none shares a page with another, and the table has room for their pages. */
  ghost predicate MappableAll(l: seq<MemSection>, l1: seq<Word>) {
    && (forall i :: 0 <= i < |l| ==> Exact(l[i]) && SlotsFree(l1, l[i]))
    && (forall i, j :: 0 <= i < j < |l| ==> EndOf(l[i]) <= l[j].virt)
  }

  /** The search for a place is past the first `i` sections. */
  ghost predicate InsertFrom(l: seq<MemSection>, i: nat, virt: Word)
    requires i <= |l|
  {
    InsertAt(l, virt) == i + InsertAt(l[i..], virt)
  }

  lemma InsertStart(l: seq<MemSection>, virt: Word)
    ensures InsertFrom(l, 0, virt)
  {
    assert l[0..] == l;
  }

  lemma InsertNext(l: seq<MemSection>, i: nat, virt: Word)
    requires i < |l| && l[i].virt <= virt && InsertFrom(l, i, virt)
    ensures InsertFrom(l, i + 1, virt)
  {
    assert l[i..][0] == l[i] && l[i..][1..] == l[i + 1..];
  }

  lemma InsertHere(l: seq<MemSection>, i: nat, virt: Word)
    requires i <= |l| && (i < |l| ==> virt < l[i].virt) && InsertFrom(l, i, virt)
    ensures InsertAt(l, virt) == i
  {
  }

  /** The search from the base is the search from the `i`-th section with the candidate `start`. */
  ghost predicate HoleFrom(l: seq<MemSection>, i: nat, base: Word, start: Word, size: Word)
    requires i <= |l|
  {
    Hole(l, base, base, size) == var p := Hole(l[i..], base, start, size); Place(p.index + i, p.at)
  }

  lemma HoleNext(l: seq<MemSection>, i: nat, base: Word, start: Word, size: Word)
    requires i < |l| && HoleFrom(l, i, base, start, size)
    ensures if l[i].virt > base && l[i].virt > (start + size) % W then Hole(l, base, base, size) == Place(i, start)
            else HoleFrom(l, i + 1, base, Pad(After(l[i]) % W), size)
  {
    assert l[i..][0] == l[i] && l[i..][1..] == l[i + 1..];
  }

  ghost predicate ExactAll(l: seq<MemSection>) {
    && (forall i :: 0 <= i < |l| ==> Exact(l[i]))
    && (forall i, j :: 0 <= i < j < |l| ==> EndOf(l[i]) <= l[j].virt)
  }

  /** After one more mapping there is still room for the next ones. */
  lemma OthersNext(l: seq<MemSection>, k: nat, was1: seq<Word>, l1: seq<Word>)
    requires ExactAll(l) && k < |l| && OthersKept(was1, l1, l[k]) && forall i :: k <= i < |l| ==> SlotsFree(was1, l[i])
    ensures forall i :: k < i < |l| ==> SlotsFree(l1, l[i])
  {
    hide SlotsFree;
    forall i | k < i < |l|
      ensures SlotsFree(l1, l[i])
    {
      assert Exact(l[k]) && PagesApart(l[k], l[i]);
    }
  }

  /** One more mapping reaches its section and leaves the ones before it alone. */
  lemma MappedNext(l: seq<MemSection>, k: nat, was1: seq<Word>, was2: Tables, l1: seq<Word>, l2: Tables)
    requires ExactAll(l) && k < |l|
    requires forall va :: 0 <= va < W ==>
               Walk(l1, l2, va) == if Affected(l[k], va) then Mapped(Target(l[k], va), Requested(l[k]))
                   else Walk(was1, was2, va)
    requires forall i, va :: 0 <= i < k && InRange(l[i], va) ==> MapsTo(was1, was2, l[i], va)
    ensures forall i, va :: 0 <= i <= k && InRange(l[i], va) ==> MapsTo(l1, l2, l[i], va)
  {
    hide Walk;
    hide Affected;
    hide Target;
    forall i, va | 0 <= i <= k && InRange(l[i], va)
      ensures MapsTo(l1, l2, l[i], va)
    {
      assert Exact(l[i]) && Exact(l[k]);
      ExactMapping(l[k], va);
      if i < k {
        assert EndOf(l[i]) <= l[k].virt;
        assert MapsTo(was1, was2, l[i], va);
      }
    }
  }

  lemma HoleStart(l: seq<MemSection>, base: Word, size: Word)
    ensures HoleFrom(l, 0, base, base, size)
  {
    assert l[0..] == l;
  }

  lemma HoleLast(l: seq<MemSection>, base: Word, start: Word, size: Word)
    requires HoleFrom(l, |l|, base, start, size)
    ensures Hole(l, base, base, size) == Place(|l|, Pad(start))
  {
  }

  lemma TranslateNext(l: seq<MemSection>, i: nat, va: Word, base: Word, poolStart: Word)
    requires i < |l|
    ensures VirtToReal(l[i..], va, base, poolStart)
            == if l[i].virt <= va <= After(l[i]) % W then (l[i].phys + (va - l[i].virt)) % W
               else VirtToReal(l[i + 1..], va, base, poolStart)
  {
    assert l[i..][0] == l[i] && l[i..][1..] == l[i + 1..];
  }

  lemma TranslateLast(l: seq<MemSection>, va: Word, base: Word, poolStart: Word)
    ensures VirtToReal(l[|l|..], va, base, poolStart) == ((if va >= base then va - base else va) + poolStart) % W
  {
  }

  /**
    For a process whose sections are mapped in its table, the software translation of an address inside a section is
    the hardware's, except at the start of a section that abuts the one before it without doing so in real memory.
   */
  lemma SoftwareAgrees(process: Process, table: PageTable, i: int, va: Word, poolStart: Word)
    requires process.Valid() && 0 <= i < |process.nodes|
    requires var l := Contents(process.nodes);
             && Layout(l) && NonEmpty(l) && Fits(l) && l[i].virt <= va < After(l[i])
             && (forall j, x :: 0 <= j < |l| && InRange(l[j], x) ==> MapsTo(table.lvl1[..], table.l2, l[j], x))
    ensures var l, w := Contents(process.nodes), Walk(table.lvl1[..], table.l2, va);
            w.Mapped? && (VirtToReal(l, va, process.Base(), poolStart) == w.phys
                          <==> !(i > 0 && After(l[i - 1]) == va && (l[i - 1].phys + l[i - 1].size) % W != l[i].phys))
  {
    hide Walk;
    hide VirtToReal;
    hide Own;
    var l := Contents(process.nodes);
    assert InRange(l[i], va);
    assert MapsTo(table.lvl1[..], table.l2, l[i], va);
    TranslationAgrees(l, table.lvl1[..], table.l2, i, va, process.Base(), poolStart);
  }
}
