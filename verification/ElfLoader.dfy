/** Loading the segments of an ELF executable into one buffer. */
module ElfLoader {
  import opened Words

  const PT_LOAD: int := 1

  /** A program header, as read from the file. */
  datatype Phdr = Phdr(kind: Word, offset: Word, vaddr: Word, filesz: Word, memsz: Word, align: Word)

  /** A segment as chapter 5 of the System V gABI requires it: no more bytes in the file than in memory, and no wrap. */
  predicate SegmentOk(ph: Phdr, file: seq<Byte>) {
    ph.filesz <= ph.memsz && ph.vaddr + ph.memsz < W && ph.offset + ph.filesz <= |file|
  }

  ghost predicate Apart(a: Phdr, b: Phdr) {
    a.vaddr + a.memsz <= b.vaddr || b.vaddr + b.memsz <= a.vaddr
  }

  ghost predicate TableOk(table: seq<Phdr>, file: seq<Byte>) {
    && |table| < W - 1
    && (forall i :: 0 <= i < |table| && table[i].kind == PT_LOAD ==> SegmentOk(table[i], file))
    && (forall i, j :: 0 <= i < j < |table| && table[i].kind == PT_LOAD && table[j].kind == PT_LOAD ==>
         Apart(table[i], table[j]))
  }

  /** The next header of a kind from index `from` on; -1, all ones in the source's unsigned index, if there is none. */
  method FindPhdr(table: seq<Phdr>, kind: Word, from: nat) returns (i: int)
    requires from <= |table|
    ensures i == -1 ==> forall j :: from <= j < |table| ==> table[j].kind != kind
    ensures i != -1 ==> from <= i < |table| && table[i].kind == kind && forall j :: from <= j < i ==>
              table[j].kind != kind
  {
    i := from;
    while i < |table|
      invariant from <= i <= |table|
      invariant forall j :: from <= j < i ==> table[j].kind != kind
    {
      if table[i].kind == kind {
        return;
      }
      i := i + 1;
    }
    i := -1;
  }

  /** The end of the segment that reaches furthest, and the largest alignment. */
  method Extents(table: seq<Phdr>) returns (memsz: Word, align: Word)
    requires forall i :: 0 <= i < |table| && table[i].kind == PT_LOAD ==> table[i].vaddr + table[i].memsz < W
    ensures forall i :: 0 <= i < |table| && table[i].kind == PT_LOAD ==>
              table[i].vaddr + table[i].memsz <= memsz && table[i].align <= align
    ensures memsz == 0 ||
            exists i :: 0 <= i < |table| && table[i].kind == PT_LOAD && table[i].vaddr + table[i].memsz == memsz
    ensures align == 1 ||
            (align > 1 && exists i :: 0 <= i < |table| && table[i].kind == PT_LOAD && table[i].align == align)
  {
    memsz, align := 0, 1;
    var next := 0;
    while true
      invariant 0 <= next <= |table| && align >= 1
      invariant forall i :: 0 <= i < next && table[i].kind == PT_LOAD ==>
                  table[i].vaddr + table[i].memsz <= memsz && table[i].align <= align
      invariant memsz == 0 ||
                exists i :: 0 <= i < next && table[i].kind == PT_LOAD && table[i].vaddr + table[i].memsz == memsz
      invariant align == 1 || exists i :: 0 <= i < next && table[i].kind == PT_LOAD && table[i].align == align
      decreases |table| - next
    {
      var i := FindPhdr(table, PT_LOAD, next);
      if i == -1 {
        return;
      }
      var end := (table[i].vaddr + table[i].memsz) % W;
      if end > memsz {
        memsz := end;
      }
      if table[i].align > align {
        align := table[i].align;
      }
      next := i + 1;
    }
  }

  /** The image holds a segment: its bytes from the file, and zeros after them up to its size in memory. */
  ghost predicate Holding(image: seq<Byte>, ph: Phdr, file: seq<Byte>) {
    && SegmentOk(ph, file) && ph.vaddr + ph.memsz <= |image|
    && image[ph.vaddr..ph.vaddr + ph.filesz] == file[ph.offset..ph.offset + ph.filesz]
    && forall a :: ph.vaddr + ph.filesz <= a < ph.vaddr + ph.memsz ==> image[a] == 0
  }

  /** The address belongs to a loadable segment among the first `n` headers. */
  ghost predicate InSegment(table: seq<Phdr>, n: int, a: int) {
    exists i :: 0 <= i < n <= |table| && table[i].kind == PT_LOAD
        && table[i].vaddr <= a < table[i].vaddr + table[i].memsz
  }

  /** Writes one segment: the bytes of the file, and zeros up to its size in memory. */
  method LoadSegment(ph: Phdr, file: seq<Byte>, image: array<Byte>)
    requires SegmentOk(ph, file) && ph.vaddr + ph.memsz <= image.Length
    modifies image
    ensures Holding(image[..], ph, file)
    ensures forall a :: 0 <= a < image.Length && !(ph.vaddr <= a < ph.vaddr + ph.memsz) ==> image[a] == old(image[a])
  {
    var k := 0;
    while k < ph.filesz
      invariant 0 <= k <= ph.filesz
      invariant image[ph.vaddr..ph.vaddr + k] == file[ph.offset..ph.offset + k]
      invariant forall a :: 0 <= a < image.Length && !(ph.vaddr <= a < ph.vaddr + k) ==> image[a] == old(image[a])
    {
      ghost var done := image[ph.vaddr..ph.vaddr + k];
      image[ph.vaddr + k] := file[ph.offset + k];
      assert image[ph.vaddr..ph.vaddr + k] == done;
      assert image[ph.vaddr..ph.vaddr + k + 1] == done + [file[ph.offset + k]];
      k := k + 1;
    }
    while k < ph.memsz
      invariant ph.filesz <= k <= ph.memsz
      invariant image[ph.vaddr..ph.vaddr + ph.filesz] == file[ph.offset..ph.offset + ph.filesz]
      invariant forall a :: ph.vaddr + ph.filesz <= a < ph.vaddr + k ==> image[a] == 0
      invariant forall a :: 0 <= a < image.Length && !(ph.vaddr <= a < ph.vaddr + k) ==> image[a] == old(image[a])
    {
      ghost var done := image[ph.vaddr..ph.vaddr + ph.filesz];
      image[ph.vaddr + k] := 0;
      assert image[ph.vaddr..ph.vaddr + ph.filesz] == done;
      k := k + 1;
    }
  }

  /**
    Loads every segment into a buffer as large as the extents.  In the end each segment is there, and nothing outside
    the segments was written.
   */
  method Load(table: seq<Phdr>, file: seq<Byte>, image: array<Byte>)
    requires TableOk(table, file)
    requires forall i :: 0 <= i < |table| && table[i].kind == PT_LOAD ==>
               table[i].vaddr + table[i].memsz <= image.Length
    modifies image
    ensures forall i :: 0 <= i < |table| && table[i].kind == PT_LOAD ==> Holding(image[..], table[i], file)
    ensures forall a :: 0 <= a < image.Length && !InSegment(table, |table|, a) ==> image[a] == old(image[a])
  {
    hide Holding;
    hide SegmentOk;
    var next := 0;
    while true
      invariant 0 <= next <= |table|
      invariant forall i :: 0 <= i < next && table[i].kind == PT_LOAD ==> Holding(image[..], table[i], file)
      invariant forall a :: 0 <= a < image.Length && !InSegment(table, next, a) ==> image[a] == old(image[a])
      decreases |table| - next
    {
      var i := FindPhdr(table, PT_LOAD, next);
      if i == -1 {
        SegmentsSame(table, next, |table|);
        return;
      }
      ghost var before := image[..];
      LoadSegment(table[i], file, image);
      forall j | 0 <= j < i + 1 && table[j].kind == PT_LOAD
        ensures Holding(image[..], table[j], file)
      {
        if j < i {
          assert Apart(table[j], table[i]);
          HoldingKept(before, image[..], table[j], table[i], file);
        }
      }
      SegmentsGrow(table, next, i);
      next := i + 1;
    }
  }

  lemma HoldingKept(image: seq<Byte>, image': seq<Byte>, ph: Phdr, other: Phdr, file: seq<Byte>)
    requires Holding(image, ph, file) && Apart(ph, other) && |image'| == |image|
    requires forall a :: 0 <= a < |image| && !(other.vaddr <= a < other.vaddr + other.memsz) ==> image'[a] == image[a]
    ensures Holding(image', ph, file)
  {
    assert image'[ph.vaddr..ph.vaddr + ph.filesz] == image[ph.vaddr..ph.vaddr + ph.filesz];
  }

  lemma SegmentsSame(table: seq<Phdr>, n: int, m: int)
    requires 0 <= n <= m <= |table| && forall j :: n <= j < m ==> table[j].kind != PT_LOAD
    ensures forall a :: InSegment(table, n, a) <==> InSegment(table, m, a)
  {
    forall a
      ensures InSegment(table, n, a) <==> InSegment(table, m, a)
    {
      if InSegment(table, n, a) {
        var i :| 0 <= i < n && table[i].kind == PT_LOAD && table[i].vaddr <= a < table[i].vaddr + table[i].memsz;
        assert 0 <= i < m;
      }
    }
  }

  lemma SegmentsGrow(table: seq<Phdr>, n: int, i: int)
    requires 0 <= n <= i < |table| && (forall j :: n <= j < i ==> table[j].kind != PT_LOAD) && table[i].kind == PT_LOAD
    ensures forall a :: InSegment(table, i + 1, a) <==>
              InSegment(table, n, a) || table[i].vaddr <= a < table[i].vaddr + table[i].memsz
  {
    SegmentsSame(table, n, i);
    forall a
      ensures InSegment(table, i + 1, a) <==>
              InSegment(table, i, a) || table[i].vaddr <= a < table[i].vaddr + table[i].memsz
    {
      if InSegment(table, i, a) {
        var j :| 0 <= j < i && table[j].kind == PT_LOAD && table[j].vaddr <= a < table[j].vaddr + table[j].memsz;
        assert 0 <= j < i + 1;
      }
    }
  }

  /** Computing the extents and then loading into a buffer of that size: every write stays inside it. */
  method LoadElf(table: seq<Phdr>, file: seq<Byte>) returns (image: array<Byte>)
    requires TableOk(table, file)
    ensures fresh(image)
    ensures forall i :: 0 <= i < |table| && table[i].kind == PT_LOAD ==> Holding(image[..], table[i], file)
    ensures image.Length == 0 ||
            exists i :: 0 <= i < |table| && table[i].kind == PT_LOAD && table[i].vaddr + table[i].memsz == image.Length
  {
    var memsz, align := Extents(table);
    image := new Byte[memsz](i => 0);
    Load(table, file, image);
  }
}
