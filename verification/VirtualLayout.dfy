/** The sections of a process as a list: sorted insertion, the search for a hole, and translation. */
module VirtualLayout {
  import opened Words
  import opened Arithmetic
  import opened PageDescriptors
  import opened PageWalk

  /** The first address after a section, as an integer. */
  function After(ms: MemSection): int { ms.virt + ms.size }

  ghost predicate Sorted(l: seq<MemSection>) {
    forall i, j :: 0 <= i < j < |l| ==> l[i].virt <= l[j].virt
  }

  /** Each section ends before or where the next ones start. */
  ghost predicate Layout(l: seq<MemSection>) {
    forall i, j :: 0 <= i < j < |l| ==> After(l[i]) <= l[j].virt
  }

  ghost predicate NonEmpty(l: seq<MemSection>) {
    forall i :: 0 <= i < |l| ==> l[i].size > 0
  }

  // ---------------------------------------------------------------- sorted insertion

  /** Where `process_add_mem_sec` puts a section: before the first one that starts after it. */
  function InsertAt(l: seq<MemSection>, virt: Word): (k: nat)
    ensures k <= |l|
  {
    if l == [] || virt < l[0].virt then 0 else 1 + InsertAt(l[1..], virt)
  }

  function Spliced<T>(l: seq<T>, k: nat, x: T): seq<T>
    requires k <= |l|
  {
    l[..k] + [x] + l[k..]
  }

  /** What the insertion point separates. */
  lemma {:induction false} InsertAtSplits(l: seq<MemSection>, virt: Word)
    requires Sorted(l)
    ensures var k := InsertAt(l, virt);
            && (forall i :: 0 <= i < k ==> l[i].virt <= virt)
            && (forall i :: k <= i < |l| ==> virt < l[i].virt)
  {
    if l != [] && virt >= l[0].virt {
      assert Sorted(l[1..]);
      InsertAtSplits(l[1..], virt);
      var k := InsertAt(l, virt);
      assert forall i :: 1 <= i < |l| ==> l[i] == l[1..][i - 1];
    }
  }

  /** Insertion keeps the list sorted and its other members in place. */
  lemma InsertSorted(l: seq<MemSection>, ms: MemSection)
    requires Sorted(l)
    ensures Sorted(Spliced(l, InsertAt(l, ms.virt), ms))
  {
    InsertAtSplits(l, ms.virt);
  }

  /** Insertion of a section that overlaps no other keeps the sections apart. */
  lemma InsertLayout(l: seq<MemSection>, ms: MemSection)
    requires Layout(l) && NonEmpty(l) && ms.size > 0
    requires forall i :: 0 <= i < |l| ==> After(l[i]) <= ms.virt || After(ms) <= l[i].virt
    ensures Layout(Spliced(l, InsertAt(l, ms.virt), ms))
  {
    LayoutSorted(l);
    InsertAtSplits(l, ms.virt);
    var k := InsertAt(l, ms.virt);
    forall i | 0 <= i < |l|
      ensures i < k ==> After(l[i]) <= ms.virt
      ensures i >= k ==> After(ms) <= l[i].virt
    {
    }
    SplicedLayout(l, k, ms);
  }

  lemma LayoutSorted(l: seq<MemSection>)
    requires Layout(l)
    ensures Sorted(l)
  {
    forall i, j | 0 <= i < j < |l|
      ensures l[i].virt <= l[j].virt
    {
      assert After(l[i]) <= l[j].virt;
    }
  }

  lemma SplicedLayout(l: seq<MemSection>, k: nat, ms: MemSection)
    requires Layout(l) && k <= |l|
    requires forall i :: 0 <= i < k ==> After(l[i]) <= ms.virt
    requires forall i :: k <= i < |l| ==> After(ms) <= l[i].virt
    ensures Layout(Spliced(l, k, ms))
  {
    var l' := Spliced(l, k, ms);
    forall i, j | 0 <= i < j < |l'|
      ensures After(l'[i]) <= l'[j].virt
    {
      var i' := if i < k then i else i - 1;
      var j' := if j < k then j else j - 1;
      assert i != k ==> l'[i] == l[i'];
      assert j != k ==> l'[j] == l[j'];
    }
  }

  // ---------------------------------------------------------------- the search for a hole

  /** The padding between sections, which was meant to reach the next page. */
  function Pad(x: Word): Word { (x + x % PAGE_SIZE) % W }

  /** The padding does reach a page boundary only from a boundary or from the middle of a page. */
  lemma PadAligns(x: Word)
    requires x + PAGE_SIZE <= W
    ensures Pad(x) % PAGE_SIZE == 0 <==> x % PAGE_SIZE == 0 || x % PAGE_SIZE == PAGE_SIZE / 2
    ensures x <= Pad(x) < x + PAGE_SIZE
  {
    var q, r := x / PAGE_SIZE, x % PAGE_SIZE;
    assert x == PAGE_SIZE * q + r && 0 <= r < PAGE_SIZE;
    assert Pad(x) == x + r;
    if 2 * r < PAGE_SIZE {
      Peel(2 * r, PAGE_SIZE, q);
    } else {
      Peel(2 * r - PAGE_SIZE, PAGE_SIZE, q + 1);
    }
  }

  datatype Place = Place(index: nat, at: Word)

  /** Where `process_allocate_vmem` puts `size` bytes, in 32-bit arithmetic, with the candidate `start`. */
  function Hole(l: seq<MemSection>, base: Word, start: Word, size: Word): (p: Place)
    ensures p.index <= |l|
  {
    if l == [] then Place(0, Pad(start))
    else if l[0].virt > base && l[0].virt > (start + size) % W then Place(0, start)
    else
      var p := Hole(l[1..], base, Pad(After(l[0]) % W), size);
      Place(p.index + 1, p.at)
  }

  /** The candidate before section `i`: the padded end of the one before it. */
  function Candidate(l: seq<MemSection>, start: Word, i: nat): Word
    requires i <= |l|
  {
    if i == 0 then start else Pad(After(l[i - 1]) % W)
  }

  /** Before section `i` there is more room than is asked for, above the base. */
  predicate HasRoom(l: seq<MemSection>, base: Word, start: Word, size: Word, i: nat)
    requires i < |l|
  {
    l[i].virt > base && l[i].virt > (Candidate(l, start, i) + size) % W
  }

  /** The hole is the first one with room, at the candidate; after the last section the candidate is padded again. */
  lemma {:induction false} HoleFirst(l: seq<MemSection>, base: Word, start: Word, size: Word)
    ensures var p := Hole(l, base, start, size);
            && (forall i :: 0 <= i < p.index ==> !HasRoom(l, base, start, size, i))
            && (p.index < |l| ==> HasRoom(l, base, start, size, p.index) && p.at == Candidate(l, start, p.index))
            && (p.index == |l| ==> p.at == Pad(Candidate(l, start, |l|)))
    decreases |l|
  {
    hide Pad;
    if l != [] && !(l[0].virt > base && l[0].virt > (start + size) % W) {
      var next := Pad(After(l[0]) % W);
      HoleFirst(l[1..], base, next, size);
      RoomRest(l, base, start, size);
      hide Candidate;
      hide HasRoom;
      var p, q := Hole(l, base, start, size), Hole(l[1..], base, next, size);
      assert p == Place(q.index + 1, q.at);
      assert q.index < |l[1..]| ==> HasRoom(l[1..], base, next, size, p.index - 1);
    }
  }

  lemma RoomRest(l: seq<MemSection>, base: Word, start: Word, size: Word)
    requires l != []
    ensures HasRoom(l, base, start, size, 0) <==> l[0].virt > base && l[0].virt > (start + size) % W
    ensures var next := Pad(After(l[0]) % W);
            && (forall i :: 0 < i <= |l| ==> Candidate(l, start, i) == Candidate(l[1..], next, i - 1))
            && (forall i :: 0 < i < |l| ==>
                  HasRoom(l, base, start, size, i) == HasRoom(l[1..], base, next, size, i - 1))
  {
    hide Pad;
    var next := Pad(After(l[0]) % W);
    forall i | 0 < i <= |l|
      ensures Candidate(l, start, i) == Candidate(l[1..], next, i - 1)
    {
      assert i > 1 ==> l[i - 1] == l[1..][i - 2];
    }
    forall i | 0 < i < |l|
      ensures HasRoom(l, base, start, size, i) == HasRoom(l[1..], base, next, size, i - 1)
    {
      assert l[i] == l[1..][i - 1];
    }
  }

  /** No section is so close to the end of the address space that the search wraps. */
  ghost predicate NoWrap(l: seq<MemSection>, size: Word) {
    forall i :: 0 <= i < |l| ==> After(l[i]) + 2 * PAGE_SIZE + size <= W
  }

  ghost predicate HasBase(l: seq<MemSection>, base: Word) {
    exists i :: 0 <= i < |l| && l[i].virt == base
  }

  /** The hole lies after `lo` and the sections before it, and ends before those after it; at or above the base. */
  lemma {:induction false} HoleFits(l: seq<MemSection>, base: Word, lo: int, start: Word, size: Word)
    requires Layout(l) && NonEmpty(l) && NoWrap(l, size) && start + PAGE_SIZE + size <= W
    requires lo <= start && forall i :: 0 <= i < |l| ==> lo <= l[i].virt
    requires HasBase(l, base) || base <= lo
    ensures var p := Hole(l, base, start, size);
            && base <= p.at && lo <= p.at && p.at + size <= W
            && (HasBase(l, base) ==> p.index > 0)
            && (forall i :: 0 <= i < p.index ==> After(l[i]) <= p.at)
            && (forall i :: p.index <= i < |l| ==> p.at + size < l[i].virt)
    decreases |l|
  {
    hide Pad;
    if l == [] {
      PadAligns(start);
    } else if l[0].virt > base && l[0].virt > (start + size) % W {
      FirstBelow(l);
      NoMod(start + size);
    } else {
      var rest, end := l[1..], After(l[0]);
      assert end + 2 * PAGE_SIZE + size <= W && l[0].size > 0;
      NoMod(end);
      PadAligns(end);
      RestFacts(l, base, size);
      HoleFits(rest, base, end, Pad(end), size);
      HoleStep(l, base, lo, start, size);
    }
  }

  lemma NoMod(x: int)
    requires 0 <= x < W
    ensures x % W == x
  {
  }

  lemma HoleStep(l: seq<MemSection>, base: Word, lo: int, start: Word, size: Word)
    requires l != [] && !(l[0].virt > base && l[0].virt > (start + size) % W) && After(l[0]) < W && lo <= l[0].virt
    requires var p := Hole(l[1..], base, Pad(After(l[0])), size);
             && base <= p.at && After(l[0]) <= p.at && p.at + size <= W
             && (forall i :: 0 <= i < p.index ==> After(l[1..][i]) <= p.at)
             && (forall i :: p.index <= i < |l[1..]| ==> p.at + size < l[1..][i].virt)
    ensures var q := Hole(l, base, start, size);
            && base <= q.at && lo <= q.at && q.at + size <= W && q.index > 0
            && (forall i :: 0 <= i < q.index ==> After(l[i]) <= q.at)
            && (forall i :: q.index <= i < |l| ==> q.at + size < l[i].virt)
  {
    hide Pad;
    NoMod(After(l[0]));
    var p, q := Hole(l[1..], base, Pad(After(l[0])), size), Hole(l, base, start, size);
    assert p.index + 1 == q.index && p.at == q.at;
    assert forall i :: 0 < i < |l| ==> l[i] == l[1..][i - 1];
  }

  lemma FirstBelow(l: seq<MemSection>)
    requires Layout(l) && |l| > 0
    ensures forall i :: 0 <= i < |l| ==> l[0].virt <= l[i].virt
  {
    forall i | 0 < i < |l|
      ensures l[0].virt <= l[i].virt
    {
      assert After(l[0]) <= l[i].virt;
    }
  }

  lemma RestFacts(l: seq<MemSection>, base: Word, size: Word)
    requires Layout(l) && NonEmpty(l) && NoWrap(l, size) && |l| > 0
    ensures Layout(l[1..]) && NonEmpty(l[1..]) && NoWrap(l[1..], size)
    ensures HasBase(l[1..], base) ==> HasBase(l, base)
    ensures HasBase(l, base) ==> HasBase(l[1..], base) || l[0].virt == base
    ensures HasBase(l[1..], base) ==> After(l[0]) <= base
    ensures forall i :: 0 <= i < |l| - 1 ==> After(l[0]) <= l[1..][i].virt
  {
    var rest := l[1..];
    assert forall i :: 0 <= i < |rest| ==> rest[i] == l[i + 1];
    if HasBase(rest, base) {
      var i :| 0 <= i < |rest| && rest[i].virt == base;
      assert l[i + 1].virt == base;
    }
    if HasBase(l, base) && l[0].virt != base {
      var i :| 0 <= i < |l| && l[i].virt == base;
      assert rest[i - 1].virt == base;
    }
  }

  /**
    From a layout with a section at the base, the new section starts at or above the base and the sections stay
    apart.
   */
  lemma AllocatedLayout(l: seq<MemSection>, base: Word, ms: MemSection)
    requires Layout(l) && NonEmpty(l) && NoWrap(l, ms.size) && HasBase(l, base)
    requires ms.virt == Hole(l, base, base, ms.size).at
    ensures var k := Hole(l, base, base, ms.size).index;
            && base <= ms.virt && After(ms) <= W && k > 0
            && Layout(Spliced(l, k, ms))
            && (forall i :: 0 <= i < |l| ==> l[i].virt != ms.virt)
  {
    var i :| 0 <= i < |l| && l[i].virt == base;
    assert After(l[i]) + 2 * PAGE_SIZE + ms.size <= W;
    HoleFits(l, base, 0, base, ms.size);
    var k := Hole(l, base, base, ms.size).index;
    SplicedLayout(l, k, ms);
    forall i | 0 <= i < |l|
      ensures l[i].virt != ms.virt
    {
      assert l[i].size > 0;
      if i < k {
        assert After(l[i]) <= ms.virt;
      }
    }
  }

  // ---------------------------------------------------------------- removal

  /** The first section that starts at `virt`, the length of the list if there is none. */
  function IndexOf(l: seq<MemSection>, virt: Word): (k: nat)
    ensures k <= |l| && (k < |l| ==> l[k].virt == virt) && forall i :: 0 <= i < k ==> l[i].virt != virt
  {
    if l == [] then 0 else if l[0].virt == virt then 0 else
      var k := IndexOf(l[1..], virt);
      assert forall i :: 1 <= i < |l| ==> l[i] == l[1..][i - 1];
      1 + k
  }

  /** What `process_free_vmem` leaves: the first section of the list is never unlinked. */
  function Freed(l: seq<MemSection>, virt: Word): seq<MemSection> {
    var k := IndexOf(l, virt);
    if k == 0 || k == |l| then l else l[..k] + l[k + 1..]
  }

  /**
    Freeing keeps every section that starts elsewhere, and afterwards none starts at `virt` if and only if the first one
    does not.
   */
  lemma FreedRemoves(l: seq<MemSection>, virt: Word)
    requires Layout(l) && NonEmpty(l)
    ensures forall ms: MemSection :: ms.virt != virt ==> (ms in Freed(l, virt) <==> ms in l)
    ensures (forall ms :: ms in Freed(l, virt) ==> ms.virt != virt) <==> l == [] || l[0].virt != virt
  {
    hide IndexOf;
    var k := IndexOf(l, virt);
    if 0 < k < |l| {
      var rest := l[..k] + l[k + 1..];
      forall ms: MemSection | ms.virt != virt
        ensures ms in rest <==> ms in l
      {
        assert l == l[..k] + [l[k]] + l[k + 1..];
      }
      forall i | k < i < |l|
        ensures l[i].virt != virt
      {
        assert After(l[k]) <= l[i].virt && l[k].size > 0;
      }
    }
    if l != [] && l[0].virt == virt {
      assert l[0] in l;
    }
  }

  /** Freeing what was allocated restores the list. */
  lemma FreeAllocated(l: seq<MemSection>, base: Word, ms: MemSection)
    requires Layout(l) && NonEmpty(l) && NoWrap(l, ms.size) && HasBase(l, base)
    requires ms.virt == Hole(l, base, base, ms.size).at
    ensures Freed(Spliced(l, Hole(l, base, base, ms.size).index, ms), ms.virt) == l
  {
    AllocatedLayout(l, base, ms);
    var k := Hole(l, base, base, ms.size).index;
    var l' := Spliced(l, k, ms);
    assert l'[k] == ms && forall i :: 0 <= i < k ==> l'[i] == l[i];
    assert IndexOf(l', ms.virt) == k;
    assert l'[..k] + l'[k + 1..] == l;
  }

  // ---------------------------------------------------------------- translation

  /** `process_virt_to_real`: the first section that holds `va`, its end included, and otherwise the pool. */
  function VirtToReal(l: seq<MemSection>, va: Word, base: Word, poolStart: Word): Word {
    if l == [] then ((if va >= base then va - base else va) + poolStart) % W
    else if l[0].virt <= va <= After(l[0]) % W then (l[0].phys + (va - l[0].virt)) % W
    else VirtToReal(l[1..], va, base, poolStart)
  }

  /** An address in no section, ends included, is an offset from the base, or from 0 below it, into the pool. */
  lemma {:induction false} OutsideSections(l: seq<MemSection>, va: Word, base: Word, poolStart: Word)
    requires forall i :: 0 <= i < |l| ==> !(l[i].virt <= va <= After(l[i]) % W)
    ensures va >= base ==> VirtToReal(l, va, base, poolStart) == (poolStart + (va - base)) % W
    ensures va < base ==> VirtToReal(l, va, base, poolStart) == (poolStart + va) % W
    decreases |l|
  {
    if l != [] {
      assert forall i :: 0 < i < |l| ==> l[i] == l[1..][i - 1];
      OutsideSections(l[1..], va, base, poolStart);
    }
  }

  /** Where the section that holds `va` puts it. */
  function Own(ms: MemSection, va: int): int { (ms.phys + va - ms.virt) % W }

  /** Every section ends below 2^32. */
  ghost predicate Fits(l: seq<MemSection>) {
    forall j :: 0 <= j < |l| ==> After(l[j]) < W
  }

  lemma LayoutRest(l: seq<MemSection>, i: int)
    requires Layout(l) && NonEmpty(l) && Fits(l) && 0 < i < |l|
    ensures Layout(l[1..]) && NonEmpty(l[1..]) && Fits(l[1..]) && l[1..][i - 1] == l[i] && (i > 1 ==>
              l[1..][i - 2] == l[i - 1])
    ensures After(l[0]) <= l[i].virt && l[0].size > 0 && 0 <= After(l[0]) < W
  {
    var rest := l[1..];
    assert forall j :: 0 <= j < |rest| ==> rest[j] == l[j + 1];
  }

  /** The translation by the first section, and by the others. */
  lemma VirtToRealStep(l: seq<MemSection>, va: Word, base: Word, poolStart: Word)
    requires |l| > 0 && 0 <= After(l[0]) < W
    ensures VirtToReal(l, va, base, poolStart)
            == if l[0].virt <= va <= After(l[0]) then Own(l[0], va) else VirtToReal(l[1..], va, base, poolStart)
  {
    NoMod(After(l[0]));
  }

  lemma FitsAt(l: seq<MemSection>, i: int)
    requires Fits(l) && 0 <= i < |l|
    ensures 0 <= After(l[i]) < W
  {
  }

  /**
    Inside a section the first match is the section itself, except at the start of one that begins where the one
    before it ends: there it is that one.
   */
  lemma {:induction false} FirstMatch(l: seq<MemSection>, i: int, va: Word, base: Word, poolStart: Word)
    requires Layout(l) && NonEmpty(l) && Fits(l) && 0 <= i < |l| && l[i].virt <= va < After(l[i])
    ensures VirtToReal(l, va, base, poolStart) == if i > 0 && After(l[i - 1]) == va then Own(l[i - 1], va)
            else Own(l[i], va)
    decreases |l|
  {
    hide Layout;
    hide NonEmpty;
    hide Fits;
    hide Own;
    hide VirtToReal;
    FitsAt(l, 0);
    VirtToRealStep(l, va, base, poolStart);
    if i > 0 {
      LayoutRest(l, i);
      if After(l[0]) == va {
        OnlyNeighbour(l, i, va);
      } else {
        FirstMatch(l[1..], i - 1, va, base, poolStart);
      }
    }
  }

  lemma OnlyNeighbour(l: seq<MemSection>, i: int, va: int)
    requires Layout(l) && NonEmpty(l) && 0 < i < |l| && l[i].virt <= va && After(l[0]) == va
    ensures i == 1 && l[i].virt == va
  {
    assert After(l[0]) <= l[i].virt;
    if i > 1 {
      Between(l, i);
    }
  }

  lemma Between(l: seq<MemSection>, i: int)
    requires Layout(l) && NonEmpty(l) && 1 < i < |l|
    ensures After(l[0]) < l[i].virt
  {
    assert After(l[0]) <= l[1].virt && l[1].size > 0 && After(l[1]) <= l[i].virt;
  }

  /**
    The software translation agrees with a table that takes every section to its own real memory exactly when `va` is
    not the start of a section that abuts the one before it, or the two abut in real memory as well.
   */
  lemma TranslationAgrees(l: seq<MemSection>, l1: seq<Word>, l2: Tables, i: int, va: Word, base: Word, poolStart: Word)
    requires Layout(l) && NonEmpty(l) && Fits(l) && 0 <= i < |l| && l[i].virt <= va < After(l[i])
    requires Walk(l1, l2, va) == Mapped(Own(l[i], va), Requested(l[i]))
    ensures VirtToReal(l, va, base, poolStart) == Walk(l1, l2, va).phys
            <==> !(i > 0 && After(l[i - 1]) == va && (l[i - 1].phys + l[i - 1].size) % W != l[i].phys)
  {
    hide Walk;
    hide VirtToReal;
    hide Own;
    FirstMatch(l, i, va, base, poolStart);
    if i > 0 && After(l[i - 1]) == va {
      assert After(l[i - 1]) <= l[i].virt;
      OwnAt(l[i], va);
      OwnAt(l[i - 1], va);
    }
  }

  lemma OwnAt(ms: MemSection, va: int)
    ensures va == ms.virt ==> Own(ms, va) == ms.phys
    ensures va == After(ms) ==> Own(ms, va) == (ms.phys + ms.size) % W
  {
    NoMod(ms.phys);
  }
}
