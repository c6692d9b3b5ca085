/** The extendible hash table: a directory of shared buckets, split and doubled in place. */
module ExtendibleHash {
  import opened Bits
  import opened Common
  import opened Directory

  class Bucket<K(==), V> {
    const size: nat
    var depth: nat
    var items: seq<(K, V)>

    constructor (size: nat, depth: nat)
      ensures this.size == size && this.depth == depth && items == []
    {
      this.size, this.depth, items := size, depth, [];
    }

    method Find(key: K) returns (r: Option<V>)
      ensures r == Lookup(items, key)
    {
      var n := 0;
      while n < |items|
        invariant n <= |items| && Lookup(items[n..], key) == Lookup(items, key)
      {
        if items[n].0 == key { return Some(items[n].1); }
        assert items[n..][1..] == items[n + 1..];
        n := n + 1;
      }
      r := None;
    }

    method Remove(key: K) returns (found: bool)
      modifies this`items
      ensures items == Without(old(items), key)
      ensures found <==> HasKey(old(items), key)
    {
      var n := 0;
      while n < |items|
        invariant n <= |items| && items == old(items)
        invariant forall j :: 0 <= j < n ==> items[j].0 != key
        invariant Without(items, key) == items[..n] + Without(items[n..], key)
      {
        if items[n].0 == key {
          assert items[n..][1..] == items[n + 1..];
          items := items[..n] + items[n + 1..];
          return true;
        }
        assert items[n..][1..] == items[n + 1..];
        assert items[..n] + [items[n]] == items[..n + 1];
        n := n + 1;
      }
      assert items[..n] + [] == items;
      found := false;
    }

    /** An existing key is overwritten even when the bucket is full; only a new key is refused. */
    method Insert(key: K, value: V) returns (ok: bool)
      modifies this`items
      ensures ok <==> HasKey(old(items), key) || |old(items)| != size
      ensures items == if ok then Put(old(items), key, value) else old(items)
    {
      var n := 0;
      while n < |items|
        invariant n <= |items| && items == old(items)
        invariant forall j :: 0 <= j < n ==> items[j].0 != key
        invariant Put(items, key, value) == items[..n] + Put(items[n..], key, value)
      {
        if items[n].0 == key {
          assert items[n..][1..] == items[n + 1..];
          assert items[n := (key, value)] == items[..n] + ([(key, value)] + items[n + 1..]);
          items := items[n := (key, value)];
          return true;
        }
        assert items[n..][1..] == items[n + 1..];
        assert items[..n] + [items[n]] == items[..n + 1];
        n := n + 1;
      }
      if |items| == size { return false; }
      assert items[..n] == items;
      items := items + [(key, value)];
      ok := true;
    }
  }

  class ExtendibleHashTable<K(==, !new), V> {
    const bucketSize: nat
    const hash: K -> nat
    var globalDepth: nat
    var numBuckets: nat
    var dir: seq<Bucket<K, V>>
    ghost var contents: map<K, V>
    ghost var Repr: set<object>

    ghost var state: Dir<Bucket<K, V>, K, V>

    /** `state` is what the fields hold now. */
    ghost predicate Tied()
      reads this, state.bins.Keys
    {
      && state.global == globalDepth
      && state.slots == dir
      && (forall b :: b in state.bins ==> b.size == bucketSize && state.bins[b] == Bin(b.depth, b.items))
    }

    /** The directory invariant holds, it represents `contents`, and `numBuckets` is the number
        of distinct buckets. */
    ghost predicate Valid()
      reads this, Repr
      ensures Valid() ==> this in Repr
    {
      && this in Repr
      && state.bins.Keys <= Repr
      && Tied()
      && Holds(state, hash, bucketSize, contents)
      && numBuckets == |state.bins|
    }

    constructor (bucketSize: nat, hash: K -> nat)
      ensures Valid() && fresh(Repr)
      ensures contents == map[] && this.hash == hash && this.bucketSize == bucketSize && globalDepth == 0
    {
      this.bucketSize, this.hash, globalDepth, numBuckets := bucketSize, hash, 0, 1;
      var b := new Bucket(bucketSize, 0);
      dir := [b];
      contents := map[];
      state := Dir(0, [b], map[b := Bin(0, [])]);
      Repr := {this, b};
      new;
      EmptyHolds<Bucket<K, V>, K, V>(b, hash, bucketSize);
    }

    method IndexOf(key: K) returns (i: nat)
      requires |dir| == Pow2(globalDepth)
      ensures i == LowBits(hash(key), globalDepth) < |dir|
    {
      i := LowBits(hash(key), globalDepth);
    }

    method Find(key: K) returns (r: Option<V>)
      requires Valid()
      ensures r == if key in contents then Some(contents[key]) else None
    {
      var i := IndexOf(key);
      assert Get(state, hash, key) == Lookup(BinAt(state, i).items, key);
      r := dir[i].Find(key);
    }

    /** The bucket's own removal, seen from the directory. */
    method TakeFromBucket(bucket: Bucket<K, V>, key: K) returns (found: bool)
      requires Tied() && bucket in state.bins
      modifies this`state, bucket`items
      ensures Tied()
      ensures found <==> HasKey(old(bucket.items), key)
      ensures state == WithItems(old(state), bucket, Without(old(bucket.items), key))
      ensures |state.bins| == |old(state).bins| && state.bins.Keys == old(state).bins.Keys
      ensures bucket.items == Without(old(bucket.items), key)
    {
      found := bucket.Remove(key);
      state := WithItems(state, bucket, bucket.items);
      assert |state.bins.Keys| == |old(state).bins|;
    }

    /** Only the items of the key's bucket change: no slot, no depth and no number of buckets. */
    method Remove(key: K) returns (found: bool)
      requires Valid()
      modifies Repr
      ensures Valid() && Repr == old(Repr)
      ensures contents == old(contents) - {key}
      ensures found <==> key in old(contents)
      ensures dir == old(dir) && globalDepth == old(globalDepth) && numBuckets == old(numBuckets)
      ensures state.bins.Keys == old(state).bins.Keys && forall b :: b in state.bins ==> b.depth == old(b.depth)
    {
      hide Holds, WithItems, Without;
      RemoveTurn(state, hash, bucketSize, contents, key);
      var i := IndexOf(key);
      found := TakeFromBucket(dir[i], key);
      contents := contents - {key};
    }

    /** The first loop of a split: slots of `bucket` whose next bit is 1 now name `newBucket`. */
    method RepointSlots(bucket: Bucket<K, V>, newBucket: Bucket<K, V>, checkpos: nat)
      modifies this`dir
      ensures dir == SplitSlots(old(dir), bucket, newBucket, checkpos)
    {
      ghost var slots := SplitSlots(dir, bucket, newBucket, checkpos);
      var i := 0;
      while i < |dir|
        invariant i <= |dir| == |slots|
        invariant forall j :: 0 <= j < i ==> dir[j] == slots[j]
        invariant forall j :: i <= j < |dir| ==> dir[j] == old(dir)[j]
      {
        if dir[i] == bucket {
          if Bit(i, checkpos) == 1 {
            dir := dir[i := newBucket];
          }
        }
        i := i + 1;
      }
    }

    /** One item leaves `bucket` for the bucket its slot now names.  The insertion's result is not looked at by the
        caller; it is always true. */
    method MoveItem(bucket: Bucket<K, V>, newBucket: Bucket<K, V>, list: seq<(K, V)>, n: nat, checkpos: nat)
      requires bucket != newBucket && n < |list| && DistinctKeys(list) && |list| <= newBucket.size
      requires SlotsDivide(dir, globalDepth, list, hash, checkpos, bucket, newBucket)
      requires bucket.items == Part(list[..n], hash, checkpos, 0) + list[n..]
      requires newBucket.items == Part(list[..n], hash, checkpos, 1)
      modifies bucket`items, newBucket`items
      ensures bucket.items == Part(list[..n + 1], hash, checkpos, 0) + list[n + 1..]
      ensures newBucket.items == Part(list[..n + 1], hash, checkpos, 1)
    {
      var k, v := list[n].0, list[n].1;
      var j := IndexOf(k);
      var tobucket := dir[j];
      MoveStep(list, n, hash, checkpos);
      if tobucket != bucket {
        assert tobucket == newBucket && Bit(hash(k), checkpos) == 1;
        var removed := bucket.Remove(k);
        var moved := tobucket.Insert(k, v);
        assert moved;
      } else {
        assert Bit(hash(k), checkpos) == 0;
      }
    }

    /** The second loop of a split. */
    method MoveItems(bucket: Bucket<K, V>, newBucket: Bucket<K, V>, list: seq<(K, V)>, checkpos: nat)
      requires bucket != newBucket && bucket.items == list && newBucket.items == []
      requires DistinctKeys(list) && |list| <= newBucket.size
      requires SlotsDivide(dir, globalDepth, list, hash, checkpos, bucket, newBucket)
      modifies bucket`items, newBucket`items
      ensures bucket.items == Part(list, hash, checkpos, 0)
      ensures newBucket.items == Part(list, hash, checkpos, 1)
    {
      hide SlotsDivide, DistinctKeys;
      var n := 0;
      while n < |list|
        invariant n <= |list|
        invariant bucket.items == Part(list[..n], hash, checkpos, 0) + list[n..]
        invariant newBucket.items == Part(list[..n], hash, checkpos, 1)
      {
        MoveItem(bucket, newBucket, list, n, checkpos);
        n := n + 1;
      }
      assert list[..n] == list;
    }

    /** Splits `bucket`: the next hash bit divides its slots and its items between it and a new
        bucket. */
    method RedistributeBucket(bucket: Bucket<K, V>) returns (ghost made: Bucket<K, V>)
      requires Tied() && Splittable(state, bucket, hash, bucketSize)
      modifies this`dir, this`numBuckets, this`globalDepth, this`state, bucket
      ensures fresh(made) && made !in old(state).bins && state == Split(old(state), bucket, made, hash)
      ensures Tied()
      ensures numBuckets == old(numBuckets) + 1
    {
      bucket.depth := bucket.depth + 1;
      numBuckets := numBuckets + 1;
      var checkpos := bucket.depth - 1;
      var newBucket: Bucket<K, V> := new Bucket(bucketSize, bucket.depth);
      var list := bucket.items;
      SplitDivides(state, bucket, newBucket, hash, bucketSize);
      hide SplitSlots, SlotsDivide, Part;
      RepointSlots(bucket, newBucket, checkpos);
      MoveItems(bucket, newBucket, list, checkpos);
      made := newBucket;
      Retie(bucket, made);
    }

    /** The fields hold the split of `state` now. */
    ghost method Retie(bucket: Bucket<K, V>, made: Bucket<K, V>)
      requires bucket in state.bins && bucket != made && state.global == globalDepth
      requires forall b :: b in state.bins && b != bucket && b != made
                 ==> b.size == bucketSize && state.bins[b] == Bin(b.depth, b.items)
      requires bucket.size == made.size == bucketSize && bucket.depth == made.depth == state.bins[bucket].depth + 1
      requires dir == SplitSlots(state.slots, bucket, made, state.bins[bucket].depth)
      requires bucket.items == Part(state.bins[bucket].items, hash, state.bins[bucket].depth, 0)
      requires made.items == Part(state.bins[bucket].items, hash, state.bins[bucket].depth, 1)
      modifies this`state
      ensures Tied() && state == Split(old(state), bucket, made, hash)
    {
      hide SplitSlots, Part;
      state := Split(state, bucket, made, hash);
    }

    /** Doubles the directory: every slot is copied to the slot that differs in the new top bit. */
    method DoubleDirectory()
      requires Tied()
      modifies this`dir, this`globalDepth, this`state
      ensures Tied() && state == Doubled(old(state))
    {
      var temp := dir;
      globalDepth := globalDepth + 1;
      var n := 0;
      while n < |temp|
        modifies this`dir
        invariant n <= |temp| && dir == temp + temp[..n]
      {
        dir := dir + [temp[n]];
        n := n + 1;
      }
      state := Doubled(state);
    }

    /** One failed attempt: split the key's bucket, doubling the directory first when that bucket
        already uses every directory bit. */
    method MakeRoom(bucket: Bucket<K, V>) returns (ghost made: Bucket<K, V>)
      requires Tied() && bucket in state.bins && Splittable(Roomy(state, bucket), bucket, hash, bucketSize)
      modifies this`dir, this`numBuckets, this`globalDepth, this`state, bucket
      ensures fresh(made) && made !in old(state).bins
      ensures Tied() && state == Split(Roomy(old(state), bucket), bucket, made, hash)
      ensures globalDepth == old(globalDepth) || globalDepth == old(bucket.depth) + 1
      ensures old(bucket.depth) == old(state).bins[bucket].depth
      ensures numBuckets == old(numBuckets) + 1
    {
      if bucket.depth == globalDepth {
        DoubleDirectory();
      }
      made := RedistributeBucket(bucket);
    }

    /** The bucket's own insertion, seen from the directory. */
    method PutInBucket(bucket: Bucket<K, V>, key: K, value: V) returns (ok: bool)
      requires Tied() && bucket in state.bins
      modifies this`state, bucket`items
      ensures Tied()
      ensures ok <==> HasKey(old(bucket.items), key) || |old(bucket.items)| != bucketSize
      ensures state == if ok then WithItems(old(state), bucket, Put(old(bucket.items), key, value)) else old(state)
      ensures |state.bins| == |old(state).bins| && state.bins.Keys == old(state).bins.Keys
    {
      ok := bucket.Insert(key, value);
      if ok {
        state := WithItems(state, bucket, bucket.items);
        assert |state.bins.Keys| == |old(state).bins|;
      }
    }

    /** Local depth of the bucket that `key` belongs to. */
    ghost function Depth(key: K): nat
      requires Valid()
      reads this, Repr
    {
      state.bins[Owner(state, hash, key)].depth
    }

    /** What the fields show of the directory. */
    lemma Shows(key: K)
      requires Valid()
      ensures Shaped(state) && Holds(state, hash, bucketSize, contents) && Depth(key) == DepthAt(state, hash(key))
      ensures Depth(key) <= globalDepth == state.global && dir == state.slots && numBuckets == |state.bins|
    {
    }

    /** The table owns the bucket a split made. */
    ghost method Adopt(s: Dir<Bucket<K, V>, K, V>, made: Bucket<K, V>)
      requires this in Repr && s.bins.Keys <= Repr && state.bins.Keys == s.bins.Keys + {made} && made !in s.bins
      requires Tied() && Holds(state, hash, bucketSize, contents) && numBuckets == |s.bins| + 1
      modifies this`Repr
      ensures Valid() && Repr == old(Repr) + {made}
    {
      Repr := Repr + {made};
    }

    /** The key's bucket is full: split it, and the key's bucket is one level deeper. */
    method MakeRoomFor(key: K, bucket: Bucket<K, V>, ghost limit: nat, ghost start: Dir<Bucket<K, V>, K, V>)
      requires Valid() && bucket == Owner(state, hash, key)
      requires Splitting(start, state, hash, bucketSize, contents, key)
      requires Splittable(Roomy(state, bucket), bucket, hash, bucketSize) && bucket.depth < limit
      requires !HasKey(bucket.items, key) && |bucket.items| == bucketSize
      modifies Repr
      ensures Valid() && fresh(Repr - old(Repr)) && contents == old(contents)
      ensures Splitting(start, state, hash, bucketSize, contents, key)
      ensures old(Depth(key)) < Depth(key) <= limit
    {
      hide Holds, Splittable, Splitting;
      ghost var s := state;
      ghost var made := MakeRoom(bucket);
      SplitTurn(s, bucket, made, hash, bucketSize, contents, key);
      SplittingStep(start, s, bucket, made, hash, bucketSize, contents, key);
      Adopt(s, made);
    }

    /** One turn of the insertion loop: put the pair, or split and report failure. */
    method TryInsert(key: K, value: V, ghost limit: nat, ghost start: Dir<Bucket<K, V>, K, V>) returns (ok: bool)
      requires Valid() && Spread(contents.Keys + {key}, hash, bucketSize, limit)
      requires Splitting(start, state, hash, bucketSize, contents, key)
      modifies Repr
      ensures Valid() && fresh(Repr - old(Repr))
      ensures contents == if ok then old(contents)[key := value] else old(contents)
      ensures !ok ==> Splitting(start, state, hash, bucketSize, contents, key) && old(Depth(key)) < Depth(key) <= limit
      ensures ok ==> Inserted(start, state, hash, bucketSize, contents, key in old(contents), key)
                     && Depth(key) == old(Depth(key))
    {
      hide Holds, Splitting, Inserted, Spread, Splittable, WithItems, Put;
      InsertionTurn(start, state, hash, bucketSize, contents, key, value, limit);
      var i := IndexOf(key);
      var bucket := dir[i];
      ok := PutInBucket(bucket, key, value);
      if ok {
        contents := contents[key := value];
      } else {
        MakeRoomFor(key, bucket, limit, start);
      }
    }

    /** A key that is already bound changes no slot and no depth.  For a new key the bucket ends at the least depth,
        from the old one on, at which no more than `bucketSize` keys of the new map share the key's low bits.  One
        bucket is added for each level, the directory grows only as far as needed, and every other bucket keeps its
        slots, depth and items. */
    method Insert(key: K, value: V, ghost limit: nat)
      requires Valid() && Spread(contents.Keys + {key}, hash, bucketSize, limit)
      modifies Repr
      ensures Valid() && fresh(Repr - old(Repr))
      ensures contents == old(contents)[key := value]
      ensures Inserted(old(state), state, hash, bucketSize, contents, key in old(contents), key)
      ensures numBuckets == old(numBuckets) + (Depth(key) - old(Depth(key)))
      ensures globalDepth == if Depth(key) > old(globalDepth) then Depth(key) else old(globalDepth)
      ensures Depth(key) == old(Depth(key)) ==> dir == old(dir)
      ensures globalDepth == old(globalDepth) || globalDepth <= limit
    {
      hide *;
      ghost var start := state;
      Shows(key);
      SplittingStart(start, hash, bucketSize, contents, key);
      while true
        invariant Valid() && contents == old(contents) && fresh(Repr - old(Repr))
        invariant Splitting(start, state, hash, bucketSize, contents, key)
        invariant Depth(key) == old(Depth(key)) || Depth(key) <= limit
        decreases limit - Depth(key)
      {
        var ok := TryInsert(key, value, limit, start);
        if ok { break; }
      }
      Shows(key);
      InsertedCounts(start, state, hash, bucketSize, contents, key in old(contents), key);
    }
  }
}
