/** Iterating over a hashed map. */
module MapIterators {
  import opened Words
  import opened HashedMaps

  /** Slot `e` of bucket `b` holds an entry. */
  predicate Occupied<K, V>(bs: seq<BucketRef<K, V>>, b: int, e: int) {
    0 <= b < |bs| && bs[b].Bucket? && 0 <= e < |bs[b].entries| && bs[b].entries[e].Entry?
  }

  /** The order of the walk. */
  predicate Before(b: int, e: int, b': int, e': int) {
    b < b' || (b == b' && e < e')
  }

  ghost predicate BucketsOk<K(!new), V>(bs: seq<BucketRef<K, V>>, hash: K -> Word, contents: map<K, V>) {
    |bs| == BUCKET_COUNT && forall b :: 0 <= b < |bs| ==> BucketOk(bs[b], b, hash, contents)
  }

  /** The first entry of a bucket from slot `from` on, BUCKET_SIZE if there is none. */
  method FirstEntry<K, V>(s: seq<Slot<K, V>>, from: nat) returns (e: nat)
    requires |s| == BUCKET_SIZE && from <= BUCKET_SIZE
    ensures from <= e <= BUCKET_SIZE && (e < BUCKET_SIZE ==> s[e].Entry?)
    ensures forall j :: from <= j < e ==> s[j].Vacant?
  {
    e := from;
    while e < BUCKET_SIZE && s[e].Vacant?
      invariant from <= e <= BUCKET_SIZE
      invariant forall j :: from <= j < e ==> s[j].Vacant?
    {
      e := e + 1;
    }
  }

  class MapIterator<K(==, !new), V> {
    const target: HashedMap<K, V>
    /** Whether the iterator stands at an entry, and where. */
    var here: bool
    var bucket: nat
    var entry: nat

    constructor (target: HashedMap<K, V>)
      requires target.Valid()
      ensures this.target == target && !here
    {
      this.target := target;
      here, bucket, entry := false, 0, 0;
    }

    /** The first entry of the buckets from `from` on. */
    method FirstFrom(from: nat) returns (found: bool, b: nat, e: nat)
      requires target.Valid() && from <= BUCKET_COUNT
      ensures found ==> from <= b && Occupied(target.buckets[..], b, e)
      ensures found ==> forall b', e' :: from <= b' && Occupied(target.buckets[..], b', e') ==> !Before(b', e', b, e)
      ensures !found ==> forall b', e' :: from <= b' ==> !Occupied(target.buckets[..], b', e')
    {
      hide BucketOk;
      found, b, e := false, from, 0;
      ghost var bs := target.buckets[..];
      while b < BUCKET_COUNT
        invariant from <= b <= BUCKET_COUNT && !found
        invariant forall b', e' :: from <= b' < b ==> !Occupied(bs, b', e')
      {
        if target.buckets[b].Bucket? {
          BucketLength(target.buckets[b], b, target.hash, target.contents);
          e := FirstEntry(target.buckets[b].entries, 0);
          if e < BUCKET_SIZE {
            found := true;
            return;
          }
        }
        b := b + 1;
      }
    }

    /** Goes to the first entry, if there is one. */
    method Reset()
      requires target.Valid()
      modifies this
      ensures here ==> Occupied(target.buckets[..], bucket, entry)
      ensures here ==> forall b, e :: Occupied(target.buckets[..], b, e) ==> !Before(b, e, bucket, entry)
      ensures !here ==> forall b, e :: !Occupied(target.buckets[..], b, e)
    {
      var found, b, e := FirstFrom(0);
      here := found;
      if found {
        bucket, entry := b, e;
      } else {
        bucket, entry := 0, 0;
      }
    }

    /** Goes to the next entry, if there is one, and stays otherwise. */
    method Next() returns (ok: bool)
      requires target.Valid() && here && Occupied(target.buckets[..], bucket, entry)
      modifies this
      ensures here && Occupied(target.buckets[..], bucket, entry)
      ensures ok ==> Before(old(bucket), old(entry), bucket, entry)
      ensures ok ==> forall b, e :: Occupied(target.buckets[..], b, e) && Before(old(bucket), old(entry), b, e) ==>
                !Before(b, e, bucket, entry)
      ensures !ok ==> unchanged(this) && forall b, e :: Occupied(target.buckets[..], b, e) ==>
                !Before(bucket, entry, b, e)
    {
      hide BucketOk;
      ok := false;
      ghost var bs := target.buckets[..];
      BucketLength(target.buckets[bucket], bucket, target.hash, target.contents);
      var e := FirstEntry(target.buckets[bucket].entries, entry + 1);
      if e < BUCKET_SIZE {
        entry := e;
        ok := true;
      } else {
        var found, b, f := FirstFrom(bucket + 1);
        if found {
          bucket, entry := b, f;
          ok := true;
        }
      }
    }
  }

  // ---------------------------------------------------------------- visiting every entry

  function KeyAt<K, V>(bs: seq<BucketRef<K, V>>, p: (int, int)): K
    requires Occupied(bs, p.0, p.1)
  {
    bs[p.0].entries[p.1].key
  }

  /** The places visited are occupied, in order, and all those up to `b`, `e`. */
  ghost predicate Visited<K, V>(bs: seq<BucketRef<K, V>>, places: seq<(int, int)>, b: int, e: int) {
    && (forall i :: 0 <= i < |places| ==>
         Occupied(bs, places[i].0, places[i].1) && !Before(b, e, places[i].0, places[i].1))
    && (forall i, j :: 0 <= i < j < |places| ==> Before(places[i].0, places[i].1, places[j].0, places[j].1))
    && (forall b', e' :: Occupied(bs, b', e') && !Before(b, e, b', e') ==> (b', e') in places)
  }

  ghost predicate NothingAfter<K, V>(bs: seq<BucketRef<K, V>>, b: int, e: int) {
    forall b', e' :: Occupied(bs, b', e') ==> !Before(b, e, b', e')
  }

  ghost predicate AllIn<K, V>(bs: seq<BucketRef<K, V>>, places: seq<(int, int)>) {
    forall b, e :: Occupied(bs, b, e) ==> (b, e) in places
  }

  /** A key has one place. */
  lemma OnePlace<K(!new), V>(bs: seq<BucketRef<K, V>>, hash: K -> Word, contents: map<K, V>, p: (int, int),
                             q: (int, int))
    requires BucketsOk(bs, hash, contents) && Occupied(bs, p.0, p.1) && Occupied(bs, q.0, q.1)
             && KeyAt(bs, p) == KeyAt(bs, q)
    ensures p == q
  {
    assert BucketOk(bs[p.0], p.0, hash, contents) && BucketOk(bs[q.0], q.0, hash, contents);
    assert PairOk(bs[p.0].entries[p.1], p.0, hash, contents) && PairOk(bs[q.0].entries[q.1], q.0, hash, contents);
    assert p.0 == q.0;
  }

  /** Every key has a place. */
  lemma SomePlace<K(!new), V>(bs: seq<BucketRef<K, V>>, hash: K -> Word, contents: map<K, V>, key: K)
                              returns (p: (int, int))
    requires BucketsOk(bs, hash, contents) && key in contents
    ensures Occupied(bs, p.0, p.1) && KeyAt(bs, p) == key && p.0 == IndexOf(hash(key))
  {
    var b := IndexOf(hash(key));
    assert BucketOk(bs[b], b, hash, contents);
    assert Found(bs[b], key);
    var j :| 0 <= j < |bs[b].entries| && Has(bs[b].entries[j], key);
    p := (b, j);
  }

  lemma PlaceHolds<K(!new), V>(bs: seq<BucketRef<K, V>>, hash: K -> Word, contents: map<K, V>, p: (int, int))
    requires BucketsOk(bs, hash, contents) && Occupied(bs, p.0, p.1)
    ensures KeyAt(bs, p) in contents && contents[KeyAt(bs, p)] == bs[p.0].entries[p.1].value
            && IndexOf(hash(KeyAt(bs, p))) == p.0
    ensures 0 <= p.1 < BUCKET_SIZE
  {
    assert BucketOk(bs[p.0], p.0, hash, contents);
    assert PairOk(bs[p.0].entries[p.1], p.0, hash, contents);
  }

  /** A walk from the first entry to the last visits every pair of an unmodified map, each once. */
  method VisitAll<K(==, !new), V>(target: HashedMap<K, V>) returns (keys: seq<K>, values: seq<V>)
    requires target.Valid()
    ensures |keys| == |values| && forall i :: 0 <= i < |keys| ==>
              keys[i] in target.contents && values[i] == target.contents[keys[i]]
    ensures forall i, j :: 0 <= i < j < |keys| ==> keys[i] != keys[j]
    ensures forall key :: key in target.contents ==> key in keys
  {
    hide BucketOk;
    ghost var bs := target.buckets[..];
    assert BucketsOk(bs, target.hash, target.contents);
    var it := new MapIterator(target);
    it.Reset();
    assert bs == target.buckets[..];
    keys, values := [], [];
    ghost var places: seq<(int, int)> := [];
    if it.here {
      var more := true;
      keys, values := [target.buckets[it.bucket].entries[it.entry].key],
          [target.buckets[it.bucket].entries[it.entry].value];
      places := [(it.bucket, it.entry)];
      while more
        invariant it.here && Occupied(bs, it.bucket, it.entry) && fresh(it) && it.target == target
        invariant Visited(bs, places, it.bucket, it.entry) && Collected(bs, places, keys, values)
        invariant !more ==> NothingAfter(bs, it.bucket, it.entry)
        decreases more, BUCKET_COUNT - it.bucket, BUCKET_SIZE - it.entry
      {
        PlaceHolds(bs, target.hash, target.contents, (it.bucket, it.entry));
        ghost var b, e := it.bucket, it.entry;
        more := it.Next();
        assert bs == target.buckets[..];
        if more {
          keys := keys + [target.buckets[it.bucket].entries[it.entry].key];
          values := values + [target.buckets[it.bucket].entries[it.entry].value];
          VisitedNext(bs, places, b, e, it.bucket, it.entry);
          places := places + [(it.bucket, it.entry)];
          PlaceHolds(bs, target.hash, target.contents, (it.bucket, it.entry));
        }
      }
      VisitedDistinct(bs, places, it.bucket, it.entry);
    }
    assert AllIn(bs, places);
    AllCollected(bs, target.hash, target.contents, places, keys, values);
  }

  /** The keys and values are those of the places. */
  ghost predicate Collected<K, V>(bs: seq<BucketRef<K, V>>, places: seq<(int, int)>, keys: seq<K>, values: seq<V>) {
    && |keys| == |values| == |places|
    && forall i :: 0 <= i < |places| ==>
         Occupied(bs, places[i].0, places[i].1) && keys[i] == KeyAt(bs, places[i])
             && values[i] == bs[places[i].0].entries[places[i].1].value
  }

  lemma VisitedNext<K, V>(bs: seq<BucketRef<K, V>>, places: seq<(int, int)>, b: int, e: int, b': int, e': int)
    requires Visited(bs, places, b, e) && Occupied(bs, b', e') && Before(b, e, b', e')
    requires forall x, y :: Occupied(bs, x, y) && Before(b, e, x, y) ==> !Before(x, y, b', e')
    ensures Visited(bs, places + [(b', e')], b', e')
  {
    var places' := places + [(b', e')];
    forall x, y | Occupied(bs, x, y) && !Before(b', e', x, y)
      ensures (x, y) in places'
    {
      if !Before(b, e, x, y) {
        assert (x, y) in places;
      } else {
        assert places'[|places|] == (x, y);
      }
    }
  }

  lemma VisitedDistinct<K, V>(bs: seq<BucketRef<K, V>>, places: seq<(int, int)>, b: int, e: int)
    requires Visited(bs, places, b, e) && NothingAfter(bs, b, e)
    ensures AllIn(bs, places) && forall i, j :: 0 <= i < j < |places| ==> places[i] != places[j]
  {
    forall i, j | 0 <= i < j < |places|
      ensures places[i] != places[j]
    {
      assert Before(places[i].0, places[i].1, places[j].0, places[j].1);
    }
  }

  lemma AllCollected<K(!new), V>(bs: seq<BucketRef<K, V>>, hash: K -> Word, contents: map<K, V>,
                                 places: seq<(int, int)>, keys: seq<K>, values: seq<V>)
    requires BucketsOk(bs, hash, contents) && Collected(bs, places, keys, values)
    requires forall i, j :: 0 <= i < j < |places| ==> places[i] != places[j]
    requires AllIn(bs, places)
    ensures forall i :: 0 <= i < |keys| ==> keys[i] in contents && values[i] == contents[keys[i]]
    ensures forall i, j :: 0 <= i < j < |keys| ==> keys[i] != keys[j]
    ensures forall key :: key in contents ==> key in keys
  {
    hide BucketsOk;
    forall i | 0 <= i < |keys|
      ensures keys[i] in contents && values[i] == contents[keys[i]]
    {
      PlaceHolds(bs, hash, contents, places[i]);
    }
    forall i, j | 0 <= i < j < |keys|
      ensures keys[i] != keys[j]
    {
      if keys[i] == keys[j] {
        OnePlace(bs, hash, contents, places[i], places[j]);
      }
    }
    forall key | key in contents
      ensures key in keys
    {
      var p := SomePlace(bs, hash, contents, key);
      assert (p.0, p.1) in places;
      var i :| 0 <= i < |places| && places[i] == p;
      assert keys[i] == key;
    }
  }

  // ---------------------------------------------------------------- how much a map can hold

  /** The numbers below `n`. */
  lemma {:induction false} Below(s: set<int>, n: nat)
    requires forall x :: x in s ==> 0 <= x < n
    ensures |s| <= n
    decreases n
  {
    if n == 0 {
      assert forall x :: x !in s;
      assert s == {};
    } else {
      var s' := s - {n - 1};
      Below(s', n - 1);
      assert s <= s' + {n - 1};
      Subset(s, s' + {n - 1});
    }
  }

  lemma {:induction false} Subset<T>(a: set<T>, b: set<T>)
    requires a <= b
    ensures |a| <= |b|
    decreases |a|
  {
    if a != {} {
      var x :| x in a;
      Subset(a - {x}, b - {x});
    }
  }

  /** A set with an injective numbering below `n` has at most `n` members. */
  lemma {:induction false} Numbered<T>(s: set<T>, f: map<T, int>, n: nat)
    requires forall x :: x in s ==> x in f && 0 <= f[x] < n
    requires forall x, y :: x in s && y in s && f[x] == f[y] ==> x == y
    ensures |s| <= n
    decreases s
  {
    var image := set x | x in s :: f[x];
    Below(image, n);
    ImageSize(s, f);
  }

  lemma {:induction false} ImageSize<T>(s: set<T>, f: map<T, int>)
    requires forall x :: x in s ==> x in f
    requires forall x, y :: x in s && y in s && f[x] == f[y] ==> x == y
    ensures |set x | x in s :: f[x]| == |s|
    decreases |s|
  {
    if s != {} {
      var x :| x in s;
      var s' := s - {x};
      ImageSize(s', f);
      var image, image' := set y | y in s :: f[y], set y | y in s' :: f[y];
      assert image == image' + {f[x]};
      assert f[x] !in image';
    }
  }

  /**
    A map holds at most 32768 keys, half of its capacity: every bucket index is even, so that 1024 buckets of 32
    entries are all it can use.
   */
  lemma HalfCapacity<K(!new), V>(bs: seq<BucketRef<K, V>>, hash: K -> Word, contents: map<K, V>)
    requires BucketsOk(bs, hash, contents)
    ensures |contents| <= 32768
  {
    hide BucketsOk;
    forall key | key in contents
      ensures exists p: (int, int) :: PlaceOf(bs, hash, p, key)
    {
      var p := SomePlace(bs, hash, contents, key);
      PlaceHolds(bs, hash, contents, p);
      assert PlaceOf(bs, hash, p, key);
    }
    var f := map key | key in contents :: Number(bs, hash, key);
    forall x, y | x in contents && y in contents && f[x] == f[y]
      ensures x == y
    {
      Numbers(bs, hash, x, y);
    }
    forall x | x in contents
      ensures 0 <= f[x] < 32768
    {
      Numbers(bs, hash, x, x);
    }
    Numbered(contents.Keys, f, 32768);
  }

  ghost predicate PlaceOf<K(!new), V>(bs: seq<BucketRef<K, V>>, hash: K -> Word, p: (int, int), key: K) {
    Occupied(bs, p.0, p.1) && KeyAt(bs, p) == key && p.0 == IndexOf(hash(key)) && 0 <= p.1 < BUCKET_SIZE
  }

  /** The number of the slot of a key, counting used buckets only. */
  ghost function Number<K(!new), V>(bs: seq<BucketRef<K, V>>, hash: K -> Word, key: K): int {
    if exists p: (int, int) :: PlaceOf(bs, hash, p, key) then
      var p: (int, int) :| PlaceOf(bs, hash, p, key);
      p.0 / 2 * 32 + p.1
    else -1
  }

  lemma Numbers<K(!new), V>(bs: seq<BucketRef<K, V>>, hash: K -> Word, x: K, y: K)
    requires (exists p: (int, int) :: PlaceOf(bs, hash, p, x)) && (exists p: (int, int) :: PlaceOf(bs, hash, p, y))
    ensures 0 <= Number(bs, hash, x) < 32768
    ensures Number(bs, hash, x) == Number(bs, hash, y) ==> x == y
  {
    var p: (int, int) :| PlaceOf(bs, hash, p, x) && Number(bs, hash, x) == p.0 / 2 * 32 + p.1;
    var q: (int, int) :| PlaceOf(bs, hash, q, y) && Number(bs, hash, y) == q.0 / 2 * 32 + q.1;
    if Number(bs, hash, x) == Number(bs, hash, y) {
      assert p.0 / 2 == q.0 / 2 && p.1 == q.1;
      assert p.0 == q.0;
    }
  }
}
