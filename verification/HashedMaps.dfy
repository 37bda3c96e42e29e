/** The hashed map under the object tables and the registry: buckets of 32 entries, made and dropped on demand. */
module HashedMaps {
  import opened Words
  import HeapWords
  import HeapBinMaps
  import HeapAlign

  const BUCKET_SIZE: int := 32
  const CAPACITY: int := 65535
  const BUCKET_COUNT: int := 2047

  datatype Option<T> = None | Some(value: T)

  datatype Slot<K, V> = Vacant | Entry(key: K, value: V)

  /** A bucket's entries, or the null pointer. */
  datatype BucketRef<K, V> = NoBucket | Bucket(entries: seq<Slot<K, V>>)

  /**
    `hash & (BUCKET_COUNT - 1)`.  The count is no power of two: the mask is 2046, so that only even buckets are used.
   */
  function IndexOf(hash: Word): (i: int)
    ensures 0 <= i < BUCKET_COUNT && i % 2 == 0
  {
    hash / 2 % 1024 * 2
  }

  /** The arithmetic is that of the mask. */
  lemma IndexMask(hash: Word)
    ensures IndexOf(hash) == HeapBinMaps.And(hash, BUCKET_COUNT - 1)
  {
    var h: int := hash / 2;
    assert HeapWords.Pow2(5) == 32;
    assert HeapWords.Pow2(10) == 1024;
    HeapAlign.AndLow(h, 10);
    Halved(h);
    if hash > 0 {
      HeapAlign.AndStep(hash, 2046);
    }
  }

  /** Ten halvings divide by 1024. */
  lemma Halved(h: nat)
    ensures HeapWords.Pfx(h, 10) == h / 1024
  {
    assert HeapWords.Pfx(h, 1) == h / 2;
    assert HeapWords.Pfx(h, 2) == h / 4;
    assert HeapWords.Pfx(h, 3) == h / 8;
    assert HeapWords.Pfx(h, 4) == h / 16;
    assert HeapWords.Pfx(h, 5) == h / 32;
    assert HeapWords.Pfx(h, 6) == h / 64;
    assert HeapWords.Pfx(h, 7) == h / 128;
    assert HeapWords.Pfx(h, 8) == h / 256;
    assert HeapWords.Pfx(h, 9) == h / 512;
  }

  /** The slot holds the key. */
  predicate Has<K(==), V>(s: Slot<K, V>, key: K) {
    s.Entry? && s.key == key
  }

  /**
    A bucket holds exactly the pairs of `contents` whose keys hash to `b`, each once; without any there is no bucket.
   */
  ghost predicate BucketOk<K(!new), V>(r: BucketRef<K, V>, b: int, hash: K -> Word, contents: map<K, V>) {
    && (r.Bucket? ==> |r.entries| == BUCKET_SIZE && exists j :: 0 <= j < |r.entries| && r.entries[j].Entry?)
    && (r.Bucket? ==> forall j :: 0 <= j < |r.entries| && r.entries[j].Entry? ==>
         PairOk(r.entries[j], b, hash, contents))
    && (r.Bucket? ==> forall i, j :: 0 <= i < j < |r.entries| && r.entries[i].Entry? && r.entries[j].Entry? ==>
         r.entries[i].key != r.entries[j].key)
    && (forall key :: key in contents && IndexOf(hash(key)) == b ==> Found(r, key))
  }

  ghost predicate PairOk<K(!new), V>(s: Slot<K, V>, b: int, hash: K -> Word, contents: map<K, V>)
    requires s.Entry?
  {
    s.key in contents && contents[s.key] == s.value && IndexOf(hash(s.key)) == b
  }

  ghost predicate Found<K, V>(r: BucketRef<K, V>, key: K) {
    r.Bucket? && exists j :: 0 <= j < |r.entries| && Has(r.entries[j], key)
  }

  // ---------------------------------------------------------------- one bucket

  /** The place of a key in a bucket tells its value. */
  lemma FoundValue<K(!new), V>(r: BucketRef<K, V>, b: int, hash: K -> Word, contents: map<K, V>, key: K, j: int)
    requires BucketOk(r, b, hash, contents) && r.Bucket? && 0 <= j < |r.entries| && Has(r.entries[j], key)
    ensures key in contents && contents[key] == r.entries[j].value && IndexOf(hash(key)) == b
  {
    assert PairOk(r.entries[j], b, hash, contents);
  }

  lemma NotFound<K(!new), V>(r: BucketRef<K, V>, b: int, hash: K -> Word, contents: map<K, V>, key: K)
    requires BucketOk(r, b, hash, contents) && IndexOf(hash(key)) == b && !Found(r, key)
    ensures key !in contents
  {
  }

  /** Other buckets do not notice a new pair. */
  lemma OtherPut<K(!new), V>(r: BucketRef<K, V>, b: int, hash: K -> Word, contents: map<K, V>, key: K, value: V)
    requires BucketOk(r, b, hash, contents) && IndexOf(hash(key)) != b
    ensures BucketOk(r, b, hash, contents[key := value])
  {
    var contents' := contents[key := value];
    if r.Bucket? {
      forall j | 0 <= j < |r.entries| && r.entries[j].Entry?
        ensures PairOk(r.entries[j], b, hash, contents')
      {
        assert PairOk(r.entries[j], b, hash, contents);
      }
    }
  }

  lemma OtherRemove<K(!new), V>(r: BucketRef<K, V>, b: int, hash: K -> Word, contents: map<K, V>, key: K)
    requires BucketOk(r, b, hash, contents) && IndexOf(hash(key)) != b
    ensures BucketOk(r, b, hash, contents - {key})
  {
    var contents' := contents - {key};
    if r.Bucket? {
      forall j | 0 <= j < |r.entries| && r.entries[j].Entry?
        ensures PairOk(r.entries[j], b, hash, contents')
      {
        assert PairOk(r.entries[j], b, hash, contents);
      }
    }
  }

  /** Writing a pair where its key was, or into a vacant slot if it was nowhere. */
  lemma PutBucket<K(!new), V>(s: seq<Slot<K, V>>, b: int, hash: K -> Word, contents: map<K, V>, key: K, value: V,
                              j: int)
    requires BucketOk(Bucket(s), b, hash, contents) && IndexOf(hash(key)) == b && 0 <= j < |s|
    requires Has(s[j], key) || (s[j].Vacant? && !Found(Bucket(s), key))
    ensures BucketOk(Bucket(s[j := Entry(key, value)]), b, hash, contents[key := value])
  {
    var s', contents' := s[j := Entry(key, value)], contents[key := value];
    assert s'[j].Entry?;
    forall i | 0 <= i < |s'| && s'[i].Entry?
      ensures PairOk(s'[i], b, hash, contents')
    {
      if i != j {
        assert PairOk(s[i], b, hash, contents);
        assert Has(s[i], s[i].key);
      }
    }
    forall k | k in contents' && IndexOf(hash(k)) == b
      ensures Found(Bucket(s'), k)
    {
      if k == key {
        assert Has(s'[j], k);
      } else {
        var i :| 0 <= i < |s| && Has(s[i], k);
        assert Has(s'[i], k);
      }
    }
  }

  /** A new bucket. */
  lemma NewBucket<K(!new), V>(b: int, hash: K -> Word, contents: map<K, V>, key: K, value: V)
    requires BucketOk(NoBucket, b, hash, contents) && IndexOf(hash(key)) == b
    ensures BucketOk(Bucket(EmptyBucket<K, V>()[0 := Entry(key, value)]), b, hash, contents[key := value])
  {
    var s: seq<Slot<K, V>> := EmptyBucket()[0 := Entry(key, value)];
    var contents' := contents[key := value];
    assert s[0].Entry? && Has(s[0], key);
    assert PairOk(s[0], b, hash, contents');
    forall k | k in contents' && IndexOf(hash(k)) == b
      ensures Found(Bucket(s), k)
    {
      var none: BucketRef<K, V> := NoBucket;
      assert k != key ==> Found(none, k);
    }
  }

  function EmptyBucket<K, V>(): (s: seq<Slot<K, V>>)
    ensures |s| == BUCKET_SIZE && forall i :: 0 <= i < |s| ==> s[i] == Vacant
  {
    seq(BUCKET_SIZE, i => Vacant)
  }

  /** Clearing the slot of a key; an emptied bucket goes. */
  lemma RemoveBucket<K(!new), V>(s: seq<Slot<K, V>>, b: int, hash: K -> Word, contents: map<K, V>, key: K, j: int)
    requires BucketOk(Bucket(s), b, hash, contents) && 0 <= j < |s| && Has(s[j], key)
    ensures var s' := s[j := Vacant];
            BucketOk(if (exists i :: 0 <= i < |s'| && s'[i].Entry?) then Bucket(s')
                else NoBucket, b, hash, contents - {key})
  {
    var s', contents' := s[j := Vacant], contents - {key};
    forall i | 0 <= i < |s'| && s'[i].Entry?
      ensures PairOk(s'[i], b, hash, contents')
    {
      assert PairOk(s[i], b, hash, contents);
    }
    forall k | k in contents' && IndexOf(hash(k)) == b
      ensures Found(Bucket(s'), k)
    {
      var i :| 0 <= i < |s| && Has(s[i], k);
      assert Has(s'[i], k);
    }
  }

  // ---------------------------------------------------------------- the map

  /** The slot of a key, and the first vacant one before it; -1 where there is none. */
  method FindSlot<K(==), V>(s: seq<Slot<K, V>>, key: K) returns (used: int, unused: int)
    ensures -1 <= used < |s| && -1 <= unused < |s|
    ensures used != -1 ==> Has(s[used], key)
    ensures used == -1 ==> forall j :: 0 <= j < |s| ==> !Has(s[j], key)
    ensures unused != -1 ==> s[unused].Vacant? && forall j :: 0 <= j < unused ==> s[j].Entry?
    ensures used == -1 && unused == -1 ==> forall j :: 0 <= j < |s| ==> s[j].Entry?
  {
    used, unused := -1, -1;
    var i := 0;
    while i < |s| && used == -1
      invariant 0 <= i <= |s| && -1 <= used < i && -1 <= unused < i
      invariant used != -1 ==> Has(s[used], key)
      invariant used == -1 ==> forall j :: 0 <= j < i ==> !Has(s[j], key)
      invariant unused != -1 ==> s[unused].Vacant? && forall j :: 0 <= j < unused ==> s[j].Entry?
      invariant unused == -1 ==> forall j :: 0 <= j < i ==> s[j].Entry?
    {
      if s[i].Entry? {
        if s[i].key == key {
          used := i;
        }
      } else if unused == -1 {
        unused := i;
      }
      i := i + 1;
    }
  }

  /** Clears the slot of a key, and counts the entries that are left. */
  method ClearSlot<K(==), V>(s: seq<Slot<K, V>>, key: K) returns (ok: bool, s': seq<Slot<K, V>>, c: nat, ghost at: int)
    ensures -1 <= at < |s| && (ok <==> at != -1)
    ensures ok ==> Has(s[at], key) && s' == s[at := Vacant]
    ensures !ok ==> s' == s && forall j :: 0 <= j < |s| ==> !Has(s[j], key)
    ensures c == 0 <==> AllVacant(s', |s'|)
  {
    ok, s', c, at := false, s, 0, -1;
    var i := 0;
    while i < |s|
      invariant 0 <= i <= |s| == |s'| && -1 <= at < i && (ok <==> at != -1)
      invariant ok ==> Has(s[at], key) && s' == s[at := Vacant]
      invariant !ok ==> s' == s && forall j :: 0 <= j < i ==> !Has(s[j], key)
      invariant c == 0 <==> AllVacant(s', i)
    {
      ghost var before := s';
      if s'[i].Entry? {
        c := c + 1;
        if !ok && s'[i].key == key {
          ok := true;
          s' := s'[i := Vacant];
          c := c - 1;
          at := i;
        }
      }
      assert forall j :: 0 <= j < i ==> s'[j] == before[j];
      assert AllVacant(s', i + 1) <==> AllVacant(before, i) && s'[i].Vacant?;
      i := i + 1;
    }
  }

  predicate AllVacant<K, V>(s: seq<Slot<K, V>>, n: nat)
    requires n <= |s|
  {
    forall j :: 0 <= j < n ==> s[j].Vacant?
  }

  class HashedMap<K(==, !new), V> {
    const buckets: array<BucketRef<K, V>>
    const hash: K -> Word
    var size: nat
    ghost var contents: map<K, V>

    ghost predicate Valid()
      reads this, buckets
    {
      && buckets.Length == BUCKET_COUNT
      && (forall b :: 0 <= b < buckets.Length ==> BucketOk(buckets[b], b, hash, contents))
      && |contents| <= size <= CAPACITY
    }

    constructor (hash: K -> Word)
      ensures Valid() && contents == map[] && size == 0 && this.hash == hash && fresh(buckets)
    {
      this.hash := hash;
      buckets := new BucketRef<K, V>[BUCKET_COUNT](i => NoBucket);
      size := 0;
      contents := map[];
    }

    /** The bucket of a key has no room for it. */
    ghost predicate Crowded(key: K)
      reads this, buckets
      requires Valid()
    {
      var r := buckets[IndexOf(hash(key))];
      r.Bucket? && forall j :: 0 <= j < |r.entries| ==> r.entries[j].Entry?
    }

    /** That is so exactly if the map has 32 keys of that bucket. */
    lemma CrowdedIs(key: K)
      requires Valid()
      ensures Crowded(key) <==> |KeysIn(contents, hash, IndexOf(hash(key)))| == BUCKET_SIZE
    {
      hide BucketOk;
      CrowdedBy(buckets[IndexOf(hash(key))], IndexOf(hash(key)), hash, contents);
    }

    method Get(key: K) returns (value: Option<V>)
      requires Valid()
      ensures value == if key in contents then Some(contents[key]) else None
    {
      var index := IndexOf(hash(key));
      ghost var r := buckets[index];
      value := None;
      if buckets[index].Bucket? {
        var s := buckets[index].entries;
        var i := 0;
        while i < BUCKET_SIZE && value.None?
          invariant 0 <= i <= BUCKET_SIZE
          invariant value.None? ==> forall j :: 0 <= j < i ==> !Has(s[j], key)
          invariant value.Some? ==> key in contents && value.value == contents[key]
        {
          if s[i].Entry? {
            if s[i].key == key {
              FoundValue(r, index, hash, contents, key, i);
              value := Some(s[i].value);
            }
          }
          i := i + 1;
        }
      }
      if value.None? {
        NotFound(r, index, hash, contents, key);
      }
    }

    method ContainsKey(key: K) returns (found: bool)
      requires Valid()
      ensures found <==> key in contents
    {
      var index := IndexOf(hash(key));
      ghost var r := buckets[index];
      found := false;
      if buckets[index].Bucket? {
        var s := buckets[index].entries;
        var i := 0;
        while i < BUCKET_SIZE && !found
          invariant 0 <= i <= BUCKET_SIZE
          invariant !found ==> forall j :: 0 <= j < i ==> !Has(s[j], key)
          invariant found ==> key in contents
        {
          if s[i].Entry? {
            if s[i].key == key {
              FoundValue(r, index, hash, contents, key, i);
              found := true;
            }
          }
          i := i + 1;
        }
      }
      if !found {
        NotFound(r, index, hash, contents, key);
      }
    }

    /** Stores a pair.  A pair that replaces another is counted as well. */
    method Put(key: K, value: V) returns (ok: bool)
      requires Valid()
      modifies this, buckets
      ensures Valid()
      ensures ok <==> old(size) < CAPACITY && (key in old(contents) || !old(Crowded(key)))
      ensures contents == if ok then old(contents)[key := value] else old(contents)
      ensures size == if ok then old(size) + 1 else old(size)
      ensures !ok ==> buckets[..] == old(buckets[..])
      ensures old(size) == |old(contents)| && key !in old(contents) ==> size == |contents|
    {
      hide BucketOk;
      ok := false;
      if size < CAPACITY {
        var index := IndexOf(hash(key));
        ghost var r := buckets[index];
        var s: seq<Slot<K, V>> := if buckets[index].NoBucket? then EmptyBucket() else buckets[index].entries;
        var used, unused := FindSlot(s, key);
        var j := if used != -1 then used else unused;
        SearchTells(buckets[index], index, hash, contents, key, s, used, unused);
        if j != -1 {
          PutSlot(buckets[index], index, hash, contents, key, value, s, used, unused, j);
          forall b | 0 <= b < buckets.Length && b != index
            ensures BucketOk(buckets[b], b, hash, contents[key := value])
          {
            OtherPut(buckets[b], b, hash, contents, key, value);
          }
          buckets[index] := Bucket(s[j := Entry(key, value)]);
          SizePlus(contents, key, value);
          contents := contents[key := value];
          ok := true;
          size := size + 1;
        }
      }
    }

    /** Drops a key and its value. */
    method Remove(key: K) returns (ok: bool)
      requires Valid()
      modifies this, buckets
      ensures Valid()
      ensures ok <==> key in old(contents)
      ensures contents == old(contents) - {key}
      ensures size == if ok then old(size) - 1 else old(size)
      ensures old(size) == |old(contents)| ==> size == |contents|
    {
      hide BucketOk;
      ok := false;
      var index := IndexOf(hash(key));
      ghost var r := buckets[index];
      if buckets[index].Bucket? {
        var s, c;
        ghost var at;
        ok, s, c, at := ClearSlot(buckets[index].entries, key);
        if ok {
          FoundValue(r, index, hash, contents, key, at);
          RemoveBucket(r.entries, index, hash, contents, key, at);
          SizeMinus(contents, key);
          forall b | 0 <= b < buckets.Length && b != index
            ensures BucketOk(buckets[b], b, hash, contents - {key})
          {
            OtherRemove(buckets[b], b, hash, contents, key);
          }
          size := size - 1;
          contents := contents - {key};
        } else {
          NotFoundIn(r, index, hash, contents, key);
          EntryIn(r, index, hash, contents);
        }
        buckets[index] := if c == 0 then NoBucket else Bucket(s);
      } else {
        NotFoundIn(r, index, hash, contents, key);
      }
      assert !ok ==> contents == contents - {key};
    }
  }

  lemma BucketLength<K(!new), V>(r: BucketRef<K, V>, b: int, hash: K -> Word, contents: map<K, V>)
    requires BucketOk(r, b, hash, contents) && r.Bucket?
    ensures |r.entries| == BUCKET_SIZE
  {
  }

  lemma EntryIn<K(!new), V>(r: BucketRef<K, V>, b: int, hash: K -> Word, contents: map<K, V>)
    requires BucketOk(r, b, hash, contents) && r.Bucket?
    ensures exists j :: 0 <= j < |r.entries| && r.entries[j].Entry?
  {
  }

  lemma NotFoundIn<K(!new), V>(r: BucketRef<K, V>, b: int, hash: K -> Word, contents: map<K, V>, key: K)
    requires BucketOk(r, b, hash, contents) && IndexOf(hash(key)) == b
    requires r.Bucket? ==> forall j :: 0 <= j < |r.entries| ==> !Has(r.entries[j], key)
    ensures key !in contents
  {
    assert !Found(r, key);
  }

  lemma SizeMinus<K, V>(m: map<K, V>, key: K)
    requires key in m
    ensures |m - {key}| == |m| - 1
  {
    assert (m - {key}).Keys == m.Keys - {key};
    assert |m.Keys - {key}| == |m.Keys| - 1;
  }

  lemma SizePlus<K, V>(m: map<K, V>, key: K, value: V)
    ensures |m[key := value]| == if key in m then |m| else |m| + 1
  {
    assert m[key := value].Keys == m.Keys + {key};
    assert key !in m ==> |m.Keys + {key}| == |m.Keys| + 1;
    assert key in m ==> m.Keys + {key} == m.Keys;
  }

  /** What the search of a bucket says about the map. */
  lemma SearchTells<K(!new), V>(r: BucketRef<K, V>, b: int, hash: K -> Word, contents: map<K, V>, key: K,
                                s: seq<Slot<K, V>>,
                                used: int, unused: int)
    requires BucketOk(r, b, hash, contents) && IndexOf(hash(key)) == b
    requires s == if r.NoBucket? then EmptyBucket() else r.entries
    requires -1 <= used < |s| && -1 <= unused < |s|
    requires used != -1 ==> Has(s[used], key)
    requires used == -1 ==> forall j :: 0 <= j < |s| ==> !Has(s[j], key)
    requires unused != -1 ==> s[unused].Vacant?
    requires used == -1 && unused == -1 ==> forall j :: 0 <= j < |s| ==> s[j].Entry?
    ensures used != -1 <==> key in contents
    ensures used == -1 ==> (unused == -1 <==> r.Bucket? && forall j :: 0 <= j < |r.entries| ==> r.entries[j].Entry?)
  {
    if used != -1 {
      assert r.Bucket?;
      FoundValue(r, b, hash, contents, key, used);
    } else {
      NotFoundIn(r, b, hash, contents, key);
      assert r.NoBucket? ==> s[0].Vacant?;
    }
  }

  lemma PutSlot<K(!new), V>(r: BucketRef<K, V>, b: int, hash: K -> Word, contents: map<K, V>, key: K, value: V,
                            s: seq<Slot<K, V>>,
                            used: int, unused: int, j: int)
    requires BucketOk(r, b, hash, contents) && IndexOf(hash(key)) == b
    requires s == if r.NoBucket? then EmptyBucket() else r.entries
    requires 0 <= j < |s| && (j == used || (used == -1 && j == unused))
    requires used != -1 ==> 0 <= used < |s| && Has(s[used], key)
    requires used == -1 ==> forall i :: 0 <= i < |s| ==> !Has(s[i], key)
    requires unused != -1 ==> 0 <= unused < |s| && s[unused].Vacant? && forall i :: 0 <= i < unused ==> s[i].Entry?
    ensures BucketOk(Bucket(s[j := Entry(key, value)]), b, hash, contents[key := value])
  {
    hide BucketOk;
    if r.NoBucket? {
      assert s[0].Vacant? && used == -1;
      assert j == 0;
      NewBucket(b, hash, contents, key, value);
    } else {
      assert used == -1 ==> !Found(r, key);
      assert r == Bucket(s);
      PutBucket(s, b, hash, contents, key, value, j);
    }
  }

  // ---------------------------------------------------------------- when a bucket has no room

  /** The keys of the map that belong into bucket `b`. */
  ghost function KeysIn<K(!new), V>(contents: map<K, V>, hash: K -> Word, b: int): set<K> {
    set key | key in contents && IndexOf(hash(key)) == b
  }

  /** The keys in the first `n` slots. */
  ghost function Held<K, V>(s: seq<Slot<K, V>>, n: nat): set<K>
    requires n <= |s|
  {
    set j | 0 <= j < n && s[j].Entry? :: s[j].key
  }

  /** How many of the first `n` slots are in use. */
  ghost function Used<K, V>(s: seq<Slot<K, V>>, n: nat): (c: nat)
    requires n <= |s|
    ensures c <= n && (c == n <==> forall j :: 0 <= j < n ==> s[j].Entry?)
  {
    if n == 0 then 0 else Used(s, n - 1) + if s[n - 1].Entry? then 1 else 0
  }

  lemma {:induction false} HeldCount<K, V>(s: seq<Slot<K, V>>, n: nat)
    requires n <= |s|
    requires forall i, j :: 0 <= i < j < |s| && s[i].Entry? && s[j].Entry? ==> s[i].key != s[j].key
    ensures |Held(s, n)| == Used(s, n)
  {
    hide Held;
    if n == 0 {
      HeldNone(s);
    } else {
      HeldCount(s, n - 1);
      HeldNext(s, n - 1);
    }
  }

  lemma HeldNone<K, V>(s: seq<Slot<K, V>>)
    ensures Held(s, 0) == {}
  {
  }

  lemma HeldNext<K, V>(s: seq<Slot<K, V>>, n: nat)
    requires n < |s|
    requires forall i, j :: 0 <= i < j < |s| && s[i].Entry? && s[j].Entry? ==> s[i].key != s[j].key
    ensures if s[n].Entry? then Held(s, n + 1) == Held(s, n) + {s[n].key} && s[n].key !in Held(s, n)
            else Held(s, n + 1) == Held(s, n)
  {
    if s[n].Entry? {
      assert Held(s, n + 1) == Held(s, n) + {s[n].key};
    } else {
      assert Held(s, n + 1) == Held(s, n);
    }
  }

  /** A bucket has no room exactly if as many keys of the map belong into it as it has slots; there are never more. */
  lemma CrowdedBy<K(!new), V>(r: BucketRef<K, V>, b: int, hash: K -> Word, contents: map<K, V>)
    requires BucketOk(r, b, hash, contents)
    ensures |KeysIn(contents, hash, b)| <= BUCKET_SIZE
    ensures |KeysIn(contents, hash, b)| == BUCKET_SIZE <==>
            r.Bucket? && forall j :: 0 <= j < |r.entries| ==> r.entries[j].Entry?
  {
    if r.NoBucket? {
      assert KeysIn(contents, hash, b) == {};
    } else {
      HeldIs(r, b, hash, contents);
      HeldCount(r.entries, |r.entries|);
    }
  }

  lemma HeldIs<K(!new), V>(r: BucketRef<K, V>, b: int, hash: K -> Word, contents: map<K, V>)
    requires BucketOk(r, b, hash, contents) && r.Bucket?
    ensures Held(r.entries, |r.entries|) == KeysIn(contents, hash, b)
  {
    forall key | key in Held(r.entries, |r.entries|)
      ensures key in KeysIn(contents, hash, b)
    {
      var j :| 0 <= j < |r.entries| && r.entries[j].Entry? && r.entries[j].key == key;
      assert PairOk(r.entries[j], b, hash, contents);
    }
    forall key | key in KeysIn(contents, hash, b)
      ensures key in Held(r.entries, |r.entries|)
    {
      assert Found(r, key);
      var j :| 0 <= j < |r.entries| && Has(r.entries[j], key);
    }
  }

  /** A map whose keys all belong into one bucket takes another one of it exactly if it has less than 32. */
  method PutInOne<K(==, !new), V>(m: HashedMap<K, V>, key: K, value: V) returns (ok: bool)
    requires m.Valid() && m.size == |m.contents| && key !in m.contents
    requires forall k :: k in m.contents ==> IndexOf(m.hash(k)) == IndexOf(m.hash(key))
    modifies m, m.buckets
    ensures m.Valid() && m.size == |m.contents| && (ok <==> |old(m.contents)| < BUCKET_SIZE)
    ensures m.contents == if ok then old(m.contents)[key := value] else old(m.contents)
  {
    hide KeysIn;
    hide BucketOk;
    hide HashedMap.Crowded;
    OfOneBucket(m.contents, m.hash, IndexOf(m.hash(key)));
    CrowdedBy(m.buckets[IndexOf(m.hash(key))], IndexOf(m.hash(key)), m.hash, m.contents);
    m.CrowdedIs(key);
    ok := m.Put(key, value);
  }

  /** An empty map takes 32 keys of one bucket and refuses another one of it. */
  method CrowdOut<K(==, !new), V>(m: HashedMap<K, V>, keys: seq<K>, key: K, value: V) returns (ok: bool)
    requires m.Valid() && m.contents == map[] && m.size == 0 && |keys| == BUCKET_SIZE && key !in keys
    requires forall i, j :: 0 <= i < j < |keys| ==> keys[i] != keys[j]
    requires forall k :: k in keys ==> IndexOf(m.hash(k)) == IndexOf(m.hash(key))
    modifies m, m.buckets
    ensures m.Valid() && (forall k :: k in m.contents <==> k in keys) && !ok
  {
    hide IndexOf;
    hide HashedMap.Valid;
    var i := 0;
    while i < |keys|
      invariant 0 <= i <= |keys| && m.Valid() && m.size == |m.contents| == i
      invariant forall k :: k in m.contents <==> k in keys[..i]
    {
      assert keys[..i + 1] == keys[..i] + [keys[i]] && keys[i] in keys && keys[i] !in keys[..i];
      SizePlus(m.contents, keys[i], value);
      var put := PutInOne(m, keys[i], value);
      i := i + 1;
    }
    assert keys[..i] == keys;
    ok := PutInOne(m, key, value);
  }

  /** If all keys belong into one bucket, the bucket has as many as the map. */
  lemma OfOneBucket<K(!new), V>(contents: map<K, V>, hash: K -> Word, b: int)
    requires forall k :: k in contents ==> IndexOf(hash(k)) == b
    ensures |KeysIn(contents, hash, b)| == |contents|
  {
    assert KeysIn(contents, hash, b) == contents.Keys;
  }
}
