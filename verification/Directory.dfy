/** The extendible hash table's directory as a value: which bucket each slot names, and what
    each bucket holds.  The class in ExtendibleHash.dfy is proved to move through these values;
    the invariant and its preservation are proved here, once, without the heap. */
module Directory {
  import opened Bits
  import opened Common

  // ---------------------------------------------------------------- a bucket's item list

  ghost predicate DistinctKeys<K, V>(l: seq<(K, V)>) {
    forall i, j :: 0 <= i < j < |l| ==> l[i].0 != l[j].0
  }

  ghost predicate HasKey<K, V>(l: seq<(K, V)>, k: K) {
    exists i :: 0 <= i < |l| && l[i].0 == k
  }

  /** The value of the first item with key `k`. */
  ghost function Lookup<K, V>(l: seq<(K, V)>, k: K): Option<V> {
    if l == [] then None
    else if l[0].0 == k then Some(l[0].1)
    else Lookup(l[1..], k)
  }

  /** `l` with the value of key `k` overwritten, or the pair appended when `k` is new. */
  ghost function Put<K, V>(l: seq<(K, V)>, k: K, v: V): seq<(K, V)> {
    if l == [] then [(k, v)]
    else if l[0].0 == k then [(k, v)] + l[1..]
    else [l[0]] + Put(l[1..], k, v)
  }

  /** `l` without its first item of key `k`. */
  ghost function Without<K, V>(l: seq<(K, V)>, k: K): seq<(K, V)> {
    if l == [] then []
    else if l[0].0 == k then l[1..]
    else [l[0]] + Without(l[1..], k)
  }

  /** The items whose key's hash has bit `d` equal to `bit`, in order. */
  ghost function Part<K, V>(l: seq<(K, V)>, hash: K -> nat, d: nat, bit: nat): seq<(K, V)> {
    if l == [] then []
    else if Bit(hash(l[0].0), d) == bit then [l[0]] + Part(l[1..], hash, d, bit)
    else Part(l[1..], hash, d, bit)
  }

  lemma HasKeyTail<K, V>(l: seq<(K, V)>, k: K)
    requires l != []
    ensures HasKey(l, k) <==> l[0].0 == k || HasKey(l[1..], k)
  {
    assert forall i :: 0 < i < |l| ==> l[i] == l[1..][i - 1];
    if HasKey(l[1..], k) {
      var i :| 0 <= i < |l[1..]| && l[1..][i].0 == k;
      assert l[i + 1].0 == k;
    }
  }

  lemma {:induction false} LookupHas<K, V>(l: seq<(K, V)>, k: K)
    ensures Lookup(l, k).Some? <==> HasKey(l, k)
  {
    if l != [] {
      HasKeyTail(l, k);
      LookupHas(l[1..], k);
    }
  }

  /** Prefixing an item keeps keys distinct when its key is new. */
  lemma ConsDistinct<K, V>(e: (K, V), t: seq<(K, V)>)
    requires DistinctKeys(t) && !HasKey(t, e.0)
    ensures DistinctKeys([e] + t)
  {
    var r := [e] + t;
    assert forall i :: 0 < i < |r| ==> r[i] == t[i - 1];
  }

  lemma HeadKeyFresh<K, V>(l: seq<(K, V)>)
    requires DistinctKeys(l) && l != []
    ensures !HasKey(l[1..], l[0].0)
  {
    assert forall i :: 0 < i < |l| ==> l[i] == l[1..][i - 1];
  }

  lemma {:induction false} PutSpec<K, V>(l: seq<(K, V)>, k: K, v: V)
    requires DistinctKeys(l)
    ensures DistinctKeys(Put(l, k, v))
    ensures forall x :: HasKey(Put(l, k, v), x) <==> x == k || HasKey(l, x)
    ensures Lookup(Put(l, k, v), k) == Some(v)
    ensures forall x :: x != k ==> Lookup(Put(l, k, v), x) == Lookup(l, x)
    ensures |Put(l, k, v)| == |l| + (if HasKey(l, k) then 0 else 1)
  {
    var r := Put(l, k, v);
    if l == [] {
      assert r[0].0 == k;
    } else if l[0].0 == k {
      assert forall x :: x != k ==> Lookup(r, x) == Lookup(l[1..], x) == Lookup(l, x);
      forall x ensures HasKey(r, x) <==> HasKey(l, x) {
        LookupHas(r, x);
        LookupHas(l, x);
      }
    } else {
      PutSpec(l[1..], k, v);
      var t := Put(l[1..], k, v);
      assert r[1..] == t;
      HeadKeyFresh(l);
      ConsDistinct(l[0], t);
      assert forall x :: x != k ==> Lookup(r, x) == Lookup(l, x);
      forall x ensures HasKey(r, x) <==> x == k || HasKey(l, x) {
        LookupHas(r, x);
        LookupHas(l, x);
      }
      LookupHas(l[1..], k);
      LookupHas(l, k);
    }
  }

  lemma {:induction false} WithoutSpec<K, V>(l: seq<(K, V)>, k: K)
    requires DistinctKeys(l)
    ensures DistinctKeys(Without(l, k))
    ensures Lookup(Without(l, k), k) == None
    ensures forall x :: x != k ==> Lookup(Without(l, k), x) == Lookup(l, x)
    ensures forall x :: HasKey(Without(l, k), x) ==> x != k && HasKey(l, x)
    ensures |Without(l, k)| == |l| - (if HasKey(l, k) then 1 else 0)
  {
    var r := Without(l, k);
    if l == [] {
    } else if l[0].0 == k {
      LookupHas(r, k);
    } else {
      WithoutSpec(l[1..], k);
      var t := Without(l[1..], k);
      assert r[1..] == t;
      HeadKeyFresh(l);
      ConsDistinct(l[0], t);
      assert forall x :: x != k ==> Lookup(r, x) == Lookup(l, x);
      LookupHas(l[1..], k);
      LookupHas(l, k);
    }
    forall x | HasKey(r, x) ensures x != k && HasKey(l, x) {
      LookupHas(r, x);
      LookupHas(l, x);
    }
  }

  /** Removing the key at position `n` of a list with distinct keys closes that gap. */
  lemma {:induction false} WithoutAt<K, V>(l: seq<(K, V)>, n: nat)
    requires DistinctKeys(l) && n < |l|
    ensures Without(l, l[n].0) == l[..n] + l[n + 1..]
  {
    if n > 0 {
      WithoutAt(l[1..], n - 1);
      assert l[1..][..n - 1] == l[1..n];
      assert [l[0]] + (l[1..n] + l[n + 1..]) == l[..n] + l[n + 1..];
    }
  }

  lemma {:induction false} PutNew<K, V>(l: seq<(K, V)>, k: K, v: V)
    requires !HasKey(l, k)
    ensures Put(l, k, v) == l + [(k, v)]
  {
    if l != [] {
      HasKeyTail(l, k);
      PutNew(l[1..], k, v);
      assert [l[0]] + (l[1..] + [(k, v)]) == l + [(k, v)];
    }
  }

  lemma {:induction false} PutAt<K, V>(l: seq<(K, V)>, n: nat, v: V)
    requires DistinctKeys(l) && n < |l|
    ensures Put(l, l[n].0, v) == l[n := (l[n].0, v)]
  {
    if n > 0 {
      PutAt(l[1..], n - 1, v);
      assert [l[0]] + l[1..][n - 1 := (l[n].0, v)] == l[n := (l[n].0, v)];
    }
  }

  lemma {:induction false} PartSpec<K, V>(l: seq<(K, V)>, hash: K -> nat, d: nat, bit: nat)
    requires DistinctKeys(l)
    ensures DistinctKeys(Part(l, hash, d, bit))
    ensures |Part(l, hash, d, bit)| <= |l|
    ensures forall x :: Lookup(Part(l, hash, d, bit), x) ==
                        if Bit(hash(x), d) == bit then Lookup(l, x) else None
    ensures forall x :: HasKey(Part(l, hash, d, bit), x) ==> HasKey(l, x) && Bit(hash(x), d) == bit
  {
    var r := Part(l, hash, d, bit);
    if l != [] {
      PartSpec(l[1..], hash, d, bit);
      var t := Part(l[1..], hash, d, bit);
      if Bit(hash(l[0].0), d) == bit {
        assert r[1..] == t;
        HeadKeyFresh(l);
        ConsDistinct(l[0], t);
      }
      forall x | HasKey(r, x) ensures HasKey(l, x) && Bit(hash(x), d) == bit {
        LookupHas(r, x);
        LookupHas(l, x);
      }
    }
  }

  lemma {:induction false} PartExtend<K, V>(l: seq<(K, V)>, n: nat, hash: K -> nat, d: nat, bit: nat)
    requires n < |l|
    ensures Part(l[..n + 1], hash, d, bit) ==
            Part(l[..n], hash, d, bit) + (if Bit(hash(l[n].0), d) == bit then [l[n]] else [])
  {
    if n > 0 {
      PartExtend(l[1..], n - 1, hash, d, bit);
      assert l[1..][..n] == l[..n + 1][1..];
      assert l[1..][..n - 1] == l[..n][1..];
    }
  }

  // ---------------------------------------------------------------- the directory

  /** What one bucket holds: its local depth and its items. */
  datatype Bin<K, V> = Bin(depth: nat, items: seq<(K, V)>)

  /** A directory of `2^global` slots, each naming a bucket; several slots may share one. */
  datatype Dir<B, K, V> = Dir(global: nat, slots: seq<B>, bins: map<B, Bin<K, V>>)

  ghost predicate SlotOk<B, K, V>(d: Dir<B, K, V>, i: nat)
    requires i < |d.slots|
  {
    d.slots[i] in d.bins && d.bins[d.slots[i]].depth <= d.global
  }

  ghost predicate ShareOk<B, K, V>(d: Dir<B, K, V>, i: nat, j: nat)
    requires i < |d.slots| && j < |d.slots| && SlotOk(d, i)
  {
    d.slots[i] == d.slots[j] <==> Agree(i, j, d.bins[d.slots[i]].depth)
  }

  ghost predicate Shaped<B, K, V>(d: Dir<B, K, V>) {
    && |d.slots| == Pow2(d.global)
    && (forall i: nat :: i < |d.slots| ==> SlotOk(d, i))
    && (forall b :: b in d.bins ==> b in d.slots)
    && (forall i: nat, j: nat :: i < |d.slots| && j < |d.slots| ==> ShareOk(d, i, j))
  }

  /** The bucket that slot `i` names. */
  ghost function BinAt<B, K, V>(d: Dir<B, K, V>, i: nat): (bin: Bin<K, V>)
    requires Shaped(d) && i < |d.slots|
    ensures d.slots[i] in d.bins && bin == d.bins[d.slots[i]] && bin.depth <= d.global
  {
    assert SlotOk(d, i);
    d.bins[d.slots[i]]
  }

  ghost predicate BinOk<K, V>(bin: Bin<K, V>, i: nat, hash: K -> nat, cap: nat) {
    && DistinctKeys(bin.items)
    && |bin.items| <= cap
    && (forall e :: 0 <= e < |bin.items| ==> Agree(hash(bin.items[e].0), i, bin.depth))
  }

  /** The directory invariant: `2^global` slots; no local depth exceeds the global one; two slots
      share a bucket exactly when they agree on that bucket's low `depth` bits; every stored key
      agrees with its slot on those bits; keys are distinct and at most `cap` to a bucket. */
  ghost predicate Inv<B, K, V>(d: Dir<B, K, V>, hash: K -> nat, cap: nat) {
    && Shaped(d)
    && (forall i: nat :: i < |d.slots| ==> BinOk(BinAt(d, i), i, hash, cap))
  }

  ghost function IndexOf<B, K, V>(d: Dir<B, K, V>, hash: K -> nat, k: K): (i: nat)
    requires |d.slots| == Pow2(d.global)
    ensures i < |d.slots|
  {
    LowBits(hash(k), d.global)
  }

  /** What a lookup of `k` through the directory finds. */
  ghost function Get<B, K, V>(d: Dir<B, K, V>, hash: K -> nat, k: K): Option<V>
    requires Shaped(d)
  {
    Lookup(BinAt(d, IndexOf(d, hash, k)).items, k)
  }

  /** The directory represents exactly the finite map `m`. */
  ghost predicate Represents<B, K(!new), V>(d: Dir<B, K, V>, hash: K -> nat, m: map<K, V>)
    requires Shaped(d)
  {
    forall k {:trigger Get(d, hash, k)} :: Get(d, hash, k) == if k in m then Some(m[k]) else None
  }

  /** The whole invariant of a table of bucket size `cap` whose contents are `m`. */
  ghost predicate Holds<B, K(!new), V>(d: Dir<B, K, V>, hash: K -> nat, cap: nat, m: map<K, V>) {
    Inv(d, hash, cap) && Represents(d, hash, m)
  }

  /** Doubling: the slot vector is appended to itself. */
  ghost function Doubled<B, K, V>(d: Dir<B, K, V>): Dir<B, K, V> {
    Dir(d.global + 1, d.slots + d.slots, d.bins)
  }

  /** Splitting bucket `b`: slots of `b` whose next bit is 1 move to `nb`, and so do the items. */
  ghost function SplitSlots<B>(slots: seq<B>, b: B, nb: B, depth: nat): (r: seq<B>)
    ensures |r| == |slots|
  {
    seq(|slots|, i requires 0 <= i < |slots| => if slots[i] == b && Bit(i, depth) == 1 then nb else slots[i])
  }

  ghost function Split<B, K, V>(d: Dir<B, K, V>, b: B, nb: B, hash: K -> nat): Dir<B, K, V>
    requires b in d.bins
  {
    var bin := d.bins[b];
    Dir(d.global, SplitSlots(d.slots, b, nb, bin.depth),
        d.bins[b := Bin(bin.depth + 1, Part(bin.items, hash, bin.depth, 0))]
        [nb := Bin(bin.depth + 1, Part(bin.items, hash, bin.depth, 1))])
  }

  /** Replacing one bucket's items. */
  ghost function WithItems<B, K, V>(d: Dir<B, K, V>, b: B, items: seq<(K, V)>): Dir<B, K, V>
    requires b in d.bins
  {
    d.(bins := d.bins[b := Bin(d.bins[b].depth, items)])
  }

  /** A new table: one empty bucket of depth 0. */
  lemma EmptyHolds<B, K(!new), V>(b: B, hash: K -> nat, cap: nat)
    ensures Holds<B, K, V>(Dir(0, [b], map[b := Bin(0, [])]), hash, cap, map[])
  {
    var d: Dir<B, K, V> := Dir(0, [b], map[b := Bin(0, [])]);
    assert d.slots[0] == b;
    assert SlotOk(d, 0) && ShareOk(d, 0, 0);
    assert BinOk(BinAt(d, 0), 0, hash, cap);
  }

  lemma IndexOfAgrees(h: nat, g: nat, d: nat)
    requires d <= g
    ensures Agree(LowBits(h, g), h, d)
    ensures d < g ==> Bit(LowBits(h, g), d) == Bit(h, d)
  {
    LowBitsNarrow(h, d, g);
  }

  lemma DoubledSlot<B, K, V>(d: Dir<B, K, V>, i: nat)
    requires |d.slots| == Pow2(d.global) && i < 2 * |d.slots|
    ensures LowBits(i, d.global) < |d.slots|
    ensures Doubled(d).slots[i] == d.slots[LowBits(i, d.global)]
  {
    LowBitsStep(i, d.global);
    LowBitsSmall(i, d.global + 1);
  }

  lemma DoubleShaped<B, K, V>(d: Dir<B, K, V>)
    requires Shaped(d)
    ensures Shaped(Doubled(d))
  {
    var r, g := Doubled(d), d.global;
    forall i: nat | i < |r.slots| ensures SlotOk(r, i) {
      DoubledSlot(d, i);
      assert SlotOk(d, LowBits(i, g));
    }
    forall i: nat, j: nat | i < |r.slots| && j < |r.slots| ensures ShareOk(r, i, j) {
      DoubledSlot(d, i);
      DoubledSlot(d, j);
      assert ShareOk(d, LowBits(i, g), LowBits(j, g));
      var depth := BinAt(d, LowBits(i, g)).depth;
      LowBitsNarrow(i, depth, g);
      LowBitsNarrow(j, depth, g);
    }
  }

  /** Doubling the directory keeps the invariant and changes no binding. */
  lemma DoublePreserves<B, K(!new), V>(d: Dir<B, K, V>, hash: K -> nat, cap: nat)
    requires Inv(d, hash, cap)
    ensures Inv(Doubled(d), hash, cap)
    ensures forall k :: Get(Doubled(d), hash, k) == Get(d, hash, k)
  {
    var r, g := Doubled(d), d.global;
    DoubleShaped(d);
    forall i: nat | i < |r.slots| ensures BinOk(BinAt(r, i), i, hash, cap) {
      DoubledSlot(d, i);
      assert BinOk(BinAt(d, LowBits(i, g)), LowBits(i, g), hash, cap);
      LowBitsNarrow(i, BinAt(r, i).depth, g);
    }
    forall k ensures Get(r, hash, k) == Get(d, hash, k) {
      DoubledSlot(d, IndexOf(r, hash, k));
      LowBitsNarrow(hash(k), g, g + 1);
    }
  }

  /** The key's slot names the bucket that any slot agreeing with the key's hash names. */
  lemma OwnerOfHash<B, K, V>(d: Dir<B, K, V>, hash: K -> nat, k: K, i: nat)
    requires Shaped(d) && i < |d.slots|
    requires Agree(hash(k), i, BinAt(d, i).depth)
    ensures d.slots[IndexOf(d, hash, k)] == d.slots[i]
  {
    var depth := BinAt(d, i).depth;
    IndexOfAgrees(hash(k), d.global, depth);
    assert ShareOk(d, i, IndexOf(d, hash, k));
  }

  /** A bucket below the global depth has slots on both sides of its next bit. */
  lemma SplitHitsBoth<B, K, V>(d: Dir<B, K, V>, b: B) returns (lo: nat, hi: nat)
    requires Shaped(d) && b in d.bins && d.bins[b].depth < d.global
    ensures lo < |d.slots| && d.slots[lo] == b && Bit(lo, d.bins[b].depth) == 0
    ensures hi < |d.slots| && d.slots[hi] == b && Bit(hi, d.bins[b].depth) == 1
  {
    var depth := d.bins[b].depth;
    var i: nat :| i < |d.slots| && d.slots[i] == b;
    lo := LowBits(i, depth);
    hi := lo + Pow2(depth);
    TopBit(lo, depth);
    LowBitsNarrow(i, depth, depth);
    Pow2Monotone(depth + 1, d.global);
    assert ShareOk(d, i, lo) && ShareOk(d, i, hi);
  }

  lemma SplitShaped<B, K, V>(d: Dir<B, K, V>, b: B, nb: B, hash: K -> nat)
    requires Shaped(d) && b in d.bins && nb !in d.bins && d.bins[b].depth < d.global
    ensures Shaped(Split(d, b, nb, hash))
  {
    var r, depth := Split(d, b, nb, hash), d.bins[b].depth;
    forall i: nat | i < |r.slots| ensures SlotOk(r, i) { assert SlotOk(d, i); }
    forall i: nat, j: nat | i < |r.slots| && j < |r.slots| ensures ShareOk(r, i, j) {
      assert SlotOk(d, i) && SlotOk(d, j);
      assert ShareOk(d, i, j);
      AgreeStep(i, j, depth);
    }
    var lo, hi := SplitHitsBoth(d, b);
    assert r.slots[lo] == b && r.slots[hi] == nb;
    forall x | x in r.bins ensures x in r.slots {
      if x != b && x != nb {
        var i: nat :| i < |d.slots| && d.slots[i] == x;
        assert r.slots[i] == x;
      }
    }
  }

  lemma SplitBinOk<K, V>(bin: Bin<K, V>, i: nat, hash: K -> nat, cap: nat)
    requires BinOk(bin, i, hash, cap)
    ensures BinOk(Bin(bin.depth + 1, Part(bin.items, hash, bin.depth, Bit(i, bin.depth))), i, hash, cap)
  {
    var bit := Bit(i, bin.depth);
    PartSpec(bin.items, hash, bin.depth, bit);
    var part := Part(bin.items, hash, bin.depth, bit);
    forall e | 0 <= e < |part| ensures Agree(hash(part[e].0), i, bin.depth + 1) {
      assert HasKey(part, part[e].0);
      AgreeStep(hash(part[e].0), i, bin.depth);
    }
  }

  /** Splitting keeps the invariant and changes no binding: nothing is lost or misplaced. */
  lemma SplitPreserves<B, K(!new), V>(d: Dir<B, K, V>, b: B, nb: B, hash: K -> nat, cap: nat)
    requires Inv(d, hash, cap) && b in d.bins && nb !in d.bins && d.bins[b].depth < d.global
    ensures Inv(Split(d, b, nb, hash), hash, cap)
    ensures forall k :: Get(Split(d, b, nb, hash), hash, k) == Get(d, hash, k)
  {
    var r, depth := Split(d, b, nb, hash), d.bins[b].depth;
    SplitShaped(d, b, nb, hash);
    forall i: nat | i < |r.slots| ensures BinOk(BinAt(r, i), i, hash, cap) {
      assert BinOk(BinAt(d, i), i, hash, cap);
      if d.slots[i] == b { SplitBinOk(d.bins[b], i, hash, cap); }
    }
    forall k ensures Get(r, hash, k) == Get(d, hash, k) {
      var i := IndexOf(d, hash, k);
      assert BinOk(BinAt(d, i), i, hash, cap);
      if d.slots[i] == b {
        IndexOfAgrees(hash(k), d.global, depth);
        PartSpec(d.bins[b].items, hash, depth, Bit(i, depth));
      }
    }
  }

  lemma WithItemsShaped<B, K, V>(d: Dir<B, K, V>, b: B, items: seq<(K, V)>)
    requires Shaped(d) && b in d.bins
    ensures Shaped(WithItems(d, b, items))
  {
    var r := WithItems(d, b, items);
    forall i: nat | i < |r.slots| ensures SlotOk(r, i) { assert SlotOk(d, i); }
    forall i: nat, j: nat | i < |r.slots| && j < |r.slots| ensures ShareOk(r, i, j) { assert ShareOk(d, i, j); }
  }

  /** Overwriting the items of the bucket that owns `k` changes what is found only as those
      items change; a bucket that keeps its own contract keeps the directory's. */
  lemma WithItemsPreserves<B, K(!new), V>(d: Dir<B, K, V>, hash: K -> nat, cap: nat, k: K, items: seq<(K, V)>)
    requires Inv(d, hash, cap)
    requires DistinctKeys(items) && |items| <= cap
    requires var was := BinAt(d, IndexOf(d, hash, k)).items;
             && (forall x :: HasKey(items, x) ==> x == k || HasKey(was, x))
             && (forall x :: x != k ==> Lookup(items, x) == Lookup(was, x))
    ensures var r := WithItems(d, d.slots[IndexOf(d, hash, k)], items);
            && Inv(r, hash, cap)
            && Get(r, hash, k) == Lookup(items, k)
            && (forall x :: x != k ==> Get(r, hash, x) == Get(d, hash, x))
  {
    var i0 := IndexOf(d, hash, k);
    var b, bin := d.slots[i0], BinAt(d, i0);
    var r := WithItems(d, b, items);
    WithItemsShaped(d, b, items);
    forall i: nat | i < |r.slots| ensures BinOk(BinAt(r, i), i, hash, cap) {
      assert BinOk(BinAt(d, i), i, hash, cap);
      if d.slots[i] == b {
        forall e | 0 <= e < |items| ensures Agree(hash(items[e].0), i, bin.depth) {
          assert HasKey(items, items[e].0);
          if items[e].0 == k {
            IndexOfAgrees(hash(k), d.global, bin.depth);
            assert ShareOk(d, i, i0);
          }
        }
      }
    }
    forall x ensures Get(r, hash, x) == if x == k then Lookup(items, k) else Get(d, hash, x) {
      assert BinAt(r, IndexOf(r, hash, x)) == if r.slots[IndexOf(r, hash, x)] == b then Bin(bin.depth, items)
                                              else BinAt(d, IndexOf(d, hash, x));
    }
  }

  lemma BinsOk<B, K, V>(d: Dir<B, K, V>, hash: K -> nat, cap: nat, b: B)
    requires Inv(d, hash, cap) && b in d.bins
    ensures DistinctKeys(d.bins[b].items) && |d.bins[b].items| <= cap
  {
    var i: nat :| i < |d.slots| && d.slots[i] == b;
    assert BinOk(BinAt(d, i), i, hash, cap);
  }

  /** Every item's slot names its bucket, and the slot's next bit is the hash's next bit. */
  ghost predicate ItemsHome<B, K, V>(slots: seq<B>, global: nat, b: B, bin: Bin<K, V>, hash: K -> nat) {
    && |slots| == Pow2(global)
    && forall n :: 0 <= n < |bin.items| ==>
                     var i := LowBits(hash(bin.items[n].0), global);
                     slots[i] == b && Bit(i, bin.depth) == Bit(hash(bin.items[n].0), bin.depth)
  }

  lemma ItemsAtHome<B, K, V>(d: Dir<B, K, V>, b: B, hash: K -> nat, cap: nat)
    requires Inv(d, hash, cap) && b in d.bins && d.bins[b].depth < d.global
    ensures ItemsHome(d.slots, d.global, b, d.bins[b], hash)
  {
    var bin := d.bins[b];
    var i: nat :| i < |d.slots| && d.slots[i] == b;
    assert BinOk(BinAt(d, i), i, hash, cap);
    forall n | 0 <= n < |bin.items|
      ensures var j := LowBits(hash(bin.items[n].0), d.global);
              d.slots[j] == b && Bit(j, bin.depth) == Bit(hash(bin.items[n].0), bin.depth)
    {
      OwnerOfHash(d, hash, bin.items[n].0, i);
      IndexOfAgrees(hash(bin.items[n].0), d.global, bin.depth);
    }
  }

  /** One step of moving items: item `n` leaves the old list and joins the new one exactly when
      its bit is 1. */
  lemma MoveStep<K, V>(l: seq<(K, V)>, n: nat, hash: K -> nat, d: nat)
    requires DistinctKeys(l) && n < |l|
    ensures var k, v := l[n].0, l[n].1;
            var stay, go := Part(l[..n], hash, d, 0) + l[n..], Part(l[..n], hash, d, 1);
            var stay', go' := Part(l[..n + 1], hash, d, 0) + l[n + 1..], Part(l[..n + 1], hash, d, 1);
            && |go| < |l| && !HasKey(go, k)
            && (Bit(hash(k), d) == 1 ==> Without(stay, k) == stay' && Put(go, k, v) == go')
            && (Bit(hash(k), d) == 0 ==> stay == stay' && go == go')
  {
    var k, v := l[n].0, l[n].1;
    var kept, go := Part(l[..n], hash, d, 0), Part(l[..n], hash, d, 1);
    PartExtend(l, n, hash, d, 0);
    PartExtend(l, n, hash, d, 1);
    PartSpec(l[..n], hash, d, 0);
    PartSpec(l[..n], hash, d, 1);
    assert l[n..] == [l[n]] + l[n + 1..];
    assert !HasKey(l[..n], k);
    PutNew(go, k, v);
    WithoutMiddle(kept, l[n], l[n + 1..]);
  }

  lemma {:induction false} WithoutMiddle<K, V>(a: seq<(K, V)>, e: (K, V), c: seq<(K, V)>)
    requires !HasKey(a, e.0)
    ensures Without(a + ([e] + c), e.0) == a + c
  {
    if a == [] {
      assert a + ([e] + c) == [e] + c && a + c == c;
    } else {
      HasKeyTail(a, e.0);
      WithoutMiddle(a[1..], e, c);
      assert (a + ([e] + c))[1..] == a[1..] + ([e] + c);
      assert [a[0]] + (a[1..] + c) == a + c;
    }
  }

  /** What a split needs of the bucket it divides. */
  ghost predicate Splittable<B, K, V>(d: Dir<B, K, V>, b: B, hash: K -> nat, cap: nat) {
    && b in d.bins
    && DistinctKeys(d.bins[b].items) && |d.bins[b].items| <= cap
    && ItemsHome(d.slots, d.global, b, d.bins[b], hash)
  }

  /** Every item's slot names the bucket that the item's next bit asks for. */
  ghost predicate SlotsDivide<B, K, V>(slots: seq<B>, global: nat, items: seq<(K, V)>, hash: K -> nat, depth: nat,
                                       b: B, nb: B) {
    && |slots| == Pow2(global)
    && forall n :: 0 <= n < |items| ==>
         slots[LowBits(hash(items[n].0), global)] == if Bit(hash(items[n].0), depth) == 1 then nb else b
  }

  lemma SplitDivides<B, K, V>(d: Dir<B, K, V>, b: B, nb: B, hash: K -> nat, cap: nat)
    requires Splittable(d, b, hash, cap)
    ensures SlotsDivide(SplitSlots(d.slots, b, nb, d.bins[b].depth), d.global, d.bins[b].items, hash, d.bins[b].depth,
                        b, nb)
  {
  }

  lemma SplitReady<B, K, V>(d: Dir<B, K, V>, b: B, hash: K -> nat, cap: nat)
    requires Inv(d, hash, cap) && b in d.bins && d.bins[b].depth < d.global
    ensures Splittable(d, b, hash, cap)
  {
    BinsOk(d, hash, cap, b);
    ItemsAtHome(d, b, hash, cap);
  }

  ghost function Owner<B, K, V>(d: Dir<B, K, V>, hash: K -> nat, k: K): (b: B)
    requires Shaped(d)
    ensures b in d.bins
  {
    var i := IndexOf(d, hash, k);
    var _ := BinAt(d, i);
    d.slots[i]
  }

  ghost function AfterRemove<B, K, V>(d: Dir<B, K, V>, hash: K -> nat, k: K): Dir<B, K, V>
    requires Shaped(d)
  {
    var b := Owner(d, hash, k);
    WithItems(d, b, Without(d.bins[b].items, k))
  }

  ghost function AfterPut<B, K, V>(d: Dir<B, K, V>, hash: K -> nat, k: K, v: V): Dir<B, K, V>
    requires Shaped(d)
  {
    var b := Owner(d, hash, k);
    WithItems(d, b, Put(d.bins[b].items, k, v))
  }

  /** Removing a key from its bucket removes exactly that binding from the represented map. */
  lemma RemoveRefines<B, K(!new), V>(d: Dir<B, K, V>, hash: K -> nat, cap: nat, m: map<K, V>, k: K)
    requires Inv(d, hash, cap) && Represents(d, hash, m)
    ensures Inv(AfterRemove(d, hash, k), hash, cap)
    ensures Represents(AfterRemove(d, hash, k), hash, m - {k})
    ensures HasKey(d.bins[Owner(d, hash, k)].items, k) <==> k in m
  {
    var i := IndexOf(d, hash, k);
    var items := BinAt(d, i).items;
    assert BinOk(BinAt(d, i), i, hash, cap);
    WithoutSpec(items, k);
    LookupHas(items, k);
    assert Get(d, hash, k) == Lookup(items, k);
    WithItemsPreserves(d, hash, cap, k, Without(items, k));
  }

  /** A put that its bucket accepts adds or overwrites exactly that binding. */
  lemma PutRefines<B, K(!new), V>(d: Dir<B, K, V>, hash: K -> nat, cap: nat, m: map<K, V>, k: K, v: V)
    requires Inv(d, hash, cap) && Represents(d, hash, m)
    requires k in m || |d.bins[Owner(d, hash, k)].items| < cap
    ensures Inv(AfterPut(d, hash, k, v), hash, cap)
    ensures Represents(AfterPut(d, hash, k, v), hash, m[k := v])
  {
    var i := IndexOf(d, hash, k);
    var items := BinAt(d, i).items;
    assert BinOk(BinAt(d, i), i, hash, cap);
    PutSpec(items, k, v);
    LookupHas(items, k);
    assert Get(d, hash, k) == Lookup(items, k);
    WithItemsPreserves(d, hash, cap, k, Put(items, k, v));
  }

  // ---------------------------------------------------------------- when splitting must stop

  /** The keys of `s` whose hash has `r` as its low `d` bits. */
  ghost function HashClass<K(!new)>(s: set<K>, hash: K -> nat, d: nat, r: nat): set<K> {
    set k | k in s && LowBits(hash(k), d) == r
  }

  /** No more than `cap` keys agree on the low `d` hash bits. */
  ghost predicate Spread<K(!new)>(s: set<K>, hash: K -> nat, cap: nat, d: nat) {
    forall r: nat :: |HashClass(s, hash, d, r)| <= cap
  }

  ghost function KeySet<K, V>(l: seq<(K, V)>): set<K> {
    set i | 0 <= i < |l| :: l[i].0
  }

  lemma {:induction false} KeySetSize<K, V>(l: seq<(K, V)>)
    requires DistinctKeys(l)
    ensures |KeySet(l)| == |l|
  {
    if l != [] {
      hide KeySet, DistinctKeys;
      KeySetStep(l);
      KeySetSize(l[..|l| - 1]);
    }
  }

  lemma KeySetStep<K, V>(l: seq<(K, V)>)
    requires DistinctKeys(l) && l != []
    ensures DistinctKeys(l[..|l| - 1])
    ensures KeySet(l) == KeySet(l[..|l| - 1]) + {l[|l| - 1].0} && l[|l| - 1].0 !in KeySet(l[..|l| - 1])
  {
    var t, last := l[..|l| - 1], l[|l| - 1].0;
    assert forall i :: 0 <= i < |t| ==> t[i] == l[i];
    forall k ensures k in KeySet(l) <==> k in KeySet(t) + {last} {
      if k in KeySet(t) {
        var i :| 0 <= i < |t| && t[i].0 == k;
        assert l[i].0 == k;
      }
    }
  }

  /** A full bucket that turns the new key away is still shallower than any depth at which the
      keys are spread: the split loop has room to descend. */
  lemma FullBucketIsShallow<B, K(!new), V>(d: Dir<B, K, V>, hash: K -> nat, cap: nat, m: map<K, V>, k: K, limit: nat)
    requires Inv(d, hash, cap) && Represents(d, hash, m)
    requires Spread(m.Keys + {k}, hash, cap, limit)
    requires |BinAt(d, IndexOf(d, hash, k)).items| == cap && k !in m
    ensures BinAt(d, IndexOf(d, hash, k)).depth < limit
  {
    var i := IndexOf(d, hash, k);
    var bin := BinAt(d, i);
    if bin.depth >= limit {
      assert BinOk(bin, i, hash, cap);
      var keys := KeySet(bin.items) + {k};
      IndexOfAgrees(hash(k), d.global, bin.depth);
      forall e | 0 <= e < |bin.items|
        ensures bin.items[e].0 in m && Agree(hash(bin.items[e].0), hash(k), limit)
      {
        var x := bin.items[e].0;
        OwnerOfHash(d, hash, x, i);
        LookupHas(bin.items, x);
        assert Get(d, hash, x) == Lookup(bin.items, x);
        AgreeNarrow(hash(x), hash(k), limit, bin.depth);
      }
      assert k !in KeySet(bin.items);
      KeySetSize(bin.items);
      SubsetSize(keys, HashClass(m.Keys + {k}, hash, limit, LowBits(hash(k), limit)));
      assert false;
    }
  }

  /** Conversely, a directory of depth `g` can only ever hold keys that are spread at `g`: when
      more than `cap` keys agree on `limit` bits, no directory of depth `limit` or less holds
      them, so an Insert of the last of them cannot return at that depth. */
  lemma HeldKeysAreSpread<B, K(!new), V>(d: Dir<B, K, V>, hash: K -> nat, cap: nat, m: map<K, V>, limit: nat)
    requires Inv(d, hash, cap) && Represents(d, hash, m) && d.global <= limit
    ensures Spread(m.Keys, hash, cap, limit)
  {
    forall r: nat ensures |HashClass(m.Keys, hash, limit, r)| <= cap {
      var cls := HashClass(m.Keys, hash, limit, r);
      if cls != {} {
        var k0 :| k0 in cls;
        var i := IndexOf(d, hash, k0);
        var bin := BinAt(d, i);
        assert BinOk(bin, i, hash, cap);
        forall k | k in cls ensures k in KeySet(bin.items) {
          AgreeNarrow(hash(k), hash(k0), d.global, limit);
          assert Get(d, hash, k) == Some(m[k]);
          LookupHas(bin.items, k);
        }
        SubsetSize(cls, KeySet(bin.items));
        KeySetSize(bin.items);
      }
    }
  }

  /** A removal: what its one step on the key's bucket needs and gives. */
  lemma RemoveTurn<B, K(!new), V>(d: Dir<B, K, V>, hash: K -> nat, cap: nat, m: map<K, V>, k: K)
    requires Holds(d, hash, cap, m)
    ensures |d.slots| == Pow2(d.global) && Shaped(d)
    ensures var b := Owner(d, hash, k);
            && b == d.slots[LowBits(hash(k), d.global)] && b in d.bins
            && (HasKey(d.bins[b].items, k) <==> k in m)
            && Holds(WithItems(d, b, Without(d.bins[b].items, k)), hash, cap, m - {k})
  {
    RemoveRefines(d, hash, cap, m, k);
    LookupHas(d.bins[Owner(d, hash, k)].items, k);
    assert Get(d, hash, k) == if k in m then Some(m[k]) else None;
  }

  /** One turn of the insertion loop.  Either the key's bucket takes the pair, and the map gains
      exactly that binding; or the bucket is full, lies above depth `limit`, and can be split
      once the directory has room. */
  lemma InsertTurn<B, K(!new), V>(d: Dir<B, K, V>, hash: K -> nat, cap: nat, m: map<K, V>, k: K, v: V, limit: nat)
    requires Holds(d, hash, cap, m) && Spread(m.Keys + {k}, hash, cap, limit)
    ensures |d.slots| == Pow2(d.global)
    ensures var b := Owner(d, hash, k);
            var bin := d.bins[b];
            && b == d.slots[LowBits(hash(k), d.global)]
            && (HasKey(bin.items, k) || |bin.items| != cap ==> Holds(AfterPut(d, hash, k, v), hash, cap, m[k := v]))
            && (!HasKey(bin.items, k) && |bin.items| == cap ==>
                  && bin.depth < limit && bin.depth <= d.global && Splittable(Roomy(d, b), b, hash, cap)
                  && Holds(Roomy(d, b), hash, cap, m))
  {
    var b := Owner(d, hash, k);
    var i := IndexOf(d, hash, k);
    var bin := BinAt(d, i);
    BinsOk(d, hash, cap, b);
    LookupHas(bin.items, k);
    assert Get(d, hash, k) == Lookup(bin.items, k);
    if HasKey(bin.items, k) || |bin.items| != cap {
      PutRefines(d, hash, cap, m, k, v);
    } else {
      FullBucketIsShallow(d, hash, cap, m, k, limit);
      RoomyHolds(d, b, hash, cap, m);
      SplitReady(Roomy(d, b), b, hash, cap);
    }
  }

  /** The directory, doubled if `b` already uses all its bits. */
  ghost function Roomy<B, K, V>(d: Dir<B, K, V>, b: B): Dir<B, K, V>
    requires b in d.bins
  {
    if d.bins[b].depth == d.global then Doubled(d) else d
  }

  lemma RoomyHolds<B, K(!new), V>(d: Dir<B, K, V>, b: B, hash: K -> nat, cap: nat, m: map<K, V>)
    requires Holds(d, hash, cap, m) && b in d.bins
    ensures Holds(Roomy(d, b), hash, cap, m) && d.bins[b].depth < Roomy(d, b).global
  {
    DoublePreserves(d, hash, cap);
    var i: nat :| i < |d.slots| && d.slots[i] == b;
    assert SlotOk(d, i);
  }

  /** After the split the table is as valid as before, represents the same map, has one bucket
      more, and the key's bucket is one level deeper. */
  lemma SplitTurn<B, K(!new), V>(d: Dir<B, K, V>, b: B, nb: B, hash: K -> nat, cap: nat, m: map<K, V>, k: K)
    requires Holds(d, hash, cap, m) && b == Owner(d, hash, k) && nb !in d.bins
    ensures var d1 := Split(Roomy(d, b), b, nb, hash);
            && Holds(d1, hash, cap, m)
            && d1.bins[Owner(d1, hash, k)].depth == d.bins[b].depth + 1
            && d1.bins.Keys == d.bins.Keys + {nb}
  {
    RoomyHolds(d, b, hash, cap, m);
    DoubleKeepsOwner(d, hash, k);
    SplitPreserves(Roomy(d, b), b, nb, hash, cap);
  }

  lemma DoubleKeepsOwner<B, K, V>(d: Dir<B, K, V>, hash: K -> nat, k: K)
    requires Shaped(d)
    ensures Shaped(Doubled(d)) && Owner(Doubled(d), hash, k) == Owner(d, hash, k)
  {
    DoubleShaped(d);
    DoubledSlot(d, IndexOf(Doubled(d), hash, k));
    LowBitsNarrow(hash(k), d.global, d.global + 1);
  }

  // ---------------------------------------------------------------- how far an insertion splits

  /** Local depth of the bucket that hash value `x` leads to. */
  ghost function DepthAt<B, K, V>(d: Dir<B, K, V>, x: nat): nat
    requires Shaped(d)
  {
    BinAt(d, LowBits(x, d.global)).depth
  }

  /** The keys of `s` that agree with hash value `x` on the low `e` bits. */
  ghost function Sharing<K(!new)>(s: set<K>, hash: K -> nat, e: nat, x: nat): set<K> {
    HashClass(s, hash, e, LowBits(x, e))
  }

  /** At every depth from `from` up to `to`, more than `cap` of the keys share the low bits of `x`. */
  ghost predicate Crowded<K(!new)>(s: set<K>, hash: K -> nat, cap: nat, x: nat, from: nat, to: nat) {
    forall e: nat :: from <= e < to ==> |Sharing(s, hash, e, x)| > cap
  }

  /** Where `y` parts from `x` between depths `from` and `to`: one below the first bit they differ in, else `to`. */
  ghost function Parting(x: nat, y: nat, from: nat, to: nat): nat
    decreases (to - from)
  {
    if from >= to then to else if Bit(x, from) != Bit(y, from) then from + 1 else Parting(x, y, from + 1, to)
  }

  /** A hash value that leaves the path of `x` between depths `from` and `to` leads to a bucket of the depth at which it
      does; one that never was on it leads where it led. */
  ghost predicate Paths<B, K, V>(d: Dir<B, K, V>, e: Dir<B, K, V>, x: nat, from: nat, to: nat)
    requires Shaped(d) && Shaped(e)
  {
    && (forall y: nat :: DepthAt(e, y) == if Agree(x, y, from) then Parting(x, y, from, to) else DepthAt(d, y))
    && (forall y: nat :: Agree(x, y, from) || e.slots[LowBits(y, e.global)] == d.slots[LowBits(y, d.global)])
  }

  /** `e` is the directory `d` after splitting the bucket of hash value `x` down to depth `to`, one level at a time, and
      doing nothing else: the path to `x` is cut at each level, every other bucket is as it was, there is one more
      bucket for each level, and the directory has grown no further than needed. */
  ghost predicate Descended<B, K, V>(d: Dir<B, K, V>, e: Dir<B, K, V>, x: nat, to: nat)
    requires Shaped(d) && Shaped(e)
  {
    var from, own := DepthAt(d, x), d.slots[LowBits(x, d.global)];
    && from <= to && DepthAt(e, x) == to && Paths(d, e, x, from, to)
    && |e.bins| == |d.bins| + (to - from)
    && e.global == (if to > d.global then to else d.global)
    && d.bins.Keys <= e.bins.Keys && (forall b :: b in d.bins && b != own ==> e.bins[b] == d.bins[b])
    && (e.slots[LowBits(x, e.global)] in d.bins ==> e.slots[LowBits(x, e.global)] == own)
    && (to == from ==> e.slots == d.slots && e.bins.Keys == d.bins.Keys)
  }

  lemma DescendedStart<B, K, V>(d: Dir<B, K, V>, x: nat)
    requires Shaped(d)
    ensures Descended(d, d, x, DepthAt(d, x))
  {
    hide Shaped;
    forall y: nat | Agree(x, y, DepthAt(d, x)) ensures DepthAt(d, y) == DepthAt(d, x) {
      SameBucket(d, x, y);
    }
  }

  /** Hash values lead to one bucket exactly when they agree on its depth. */
  lemma SameBucket<B, K, V>(d: Dir<B, K, V>, x: nat, y: nat)
    requires Shaped(d)
    ensures d.slots[LowBits(x, d.global)] == d.slots[LowBits(y, d.global)] <==> Agree(x, y, DepthAt(d, x))
    ensures Agree(x, y, DepthAt(d, x)) ==> DepthAt(d, y) == DepthAt(d, x)
  {
    var i, j, depth := LowBits(x, d.global), LowBits(y, d.global), DepthAt(d, x);
    assert ShareOk(d, i, j);
    LowBitsNarrow(x, depth, d.global);
    LowBitsNarrow(y, depth, d.global);
  }

  lemma DoubledDepths<B, K, V>(d: Dir<B, K, V>, y: nat)
    requires Shaped(d)
    ensures Shaped(Doubled(d)) && DepthAt(Doubled(d), y) == DepthAt(d, y)
    ensures Doubled(d).slots[LowBits(y, d.global + 1)] == d.slots[LowBits(y, d.global)]
  {
    DoubleShaped(d);
    DoubledSlot(d, LowBits(y, d.global + 1));
    LowBitsNarrow(y, d.global, d.global + 1);
  }

  lemma RoomyDepths<B, K, V>(d: Dir<B, K, V>, b: B, y: nat)
    requires Shaped(d) && b in d.bins
    ensures var r := Roomy(d, b);
            && Shaped(r) && DepthAt(r, y) == DepthAt(d, y) && r.bins == d.bins && d.bins[b].depth < r.global
            && r.slots[LowBits(y, r.global)] == d.slots[LowBits(y, d.global)]
  {
    DoubledDepths(d, y);
    var i: nat :| i < |d.slots| && d.slots[i] == b;
    assert SlotOk(d, i);
  }

  /** A split deepens the bucket of `x` by one level and no other. */
  lemma SplitDepths<B, K, V>(d: Dir<B, K, V>, b: B, nb: B, hash: K -> nat, x: nat, y: nat)
    requires Shaped(d) && b == d.slots[LowBits(x, d.global)] && b in d.bins && nb !in d.bins
    ensures var e := Split(Roomy(d, b), b, nb, hash);
            && Shaped(e)
            && DepthAt(e, y) == (if Agree(x, y, DepthAt(d, x)) then DepthAt(d, x) + 1 else DepthAt(d, y))
            && (Agree(x, y, DepthAt(d, x)) || e.slots[LowBits(y, e.global)] == d.slots[LowBits(y, d.global)])
            && (y == x ==> e.slots[LowBits(x, e.global)] == b || e.slots[LowBits(x, e.global)] == nb)
  {
    var r := Roomy(d, b);
    RoomyDepths(d, b, x);
    RoomyDepths(d, b, y);
    SplitShaped(r, b, nb, hash);
    SameBucket(r, x, y);
    hide Shaped, Roomy;
    var e, j := Split(r, b, nb, hash), LowBits(y, r.global);
    if r.slots[j] == b {
      assert e.slots[j] == b || e.slots[j] == nb;
    }
  }

  lemma {:induction false} PartingStep(x: nat, y: nat, from: nat, to: nat)
    requires Agree(x, y, from) && from <= to
    ensures Parting(x, y, from, to + 1) == if Agree(x, y, to) then to + 1 else Parting(x, y, from, to)
    decreases (to - from)
  {
    if from == to {
      assert Parting(x, y, from + 1, to + 1) == to + 1;
    } else if Bit(x, from) == Bit(y, from) {
      AgreeStep(x, y, from);
      PartingStep(x, y, from + 1, to);
    } else if Agree(x, y, to) {
      AgreeNarrow(x, y, from, to);
    }
  }

  lemma DescendAt<B, K, V>(d: Dir<B, K, V>, e: Dir<B, K, V>, b: B, nb: B, hash: K -> nat, x: nat, to: nat, y: nat)
    requires Shaped(d) && Shaped(e) && Descended(d, e, x, to)
    requires b == e.slots[LowBits(x, e.global)] && b in e.bins && nb !in e.bins
    ensures var r, from := Split(Roomy(e, b), b, nb, hash), DepthAt(d, x);
            && Shaped(r)
            && DepthAt(r, y) == (if Agree(x, y, from) then Parting(x, y, from, to + 1) else DepthAt(d, y))
            && (Agree(x, y, from) || r.slots[LowBits(y, r.global)] == d.slots[LowBits(y, d.global)])
  {
    SplitDepths(e, b, nb, hash, x, y);
    hide Shaped, Split, Roomy;
    var from := DepthAt(d, x);
    if Agree(x, y, from) {
      PartingStep(x, y, from, to);
    } else if Agree(x, y, to) {
      AgreeNarrow(x, y, from, to);
    }
  }

  lemma SplitCounts<B, K, V>(d: Dir<B, K, V>, b: B, nb: B, hash: K -> nat)
    requires b in d.bins && nb !in d.bins
    ensures var r := Split(Roomy(d, b), b, nb, hash);
            && |r.bins| == |d.bins| + 1 && r.bins.Keys == d.bins.Keys + {nb}
            && r.global == (if d.bins[b].depth == d.global then d.global + 1 else d.global)
            && forall o :: o in d.bins && o != b ==> r.bins[o] == d.bins[o]
  {
    hide SplitSlots, Part;
    var r := Split(Roomy(d, b), b, nb, hash);
    assert r.bins.Keys == d.bins.Keys + {nb};
    assert |r.bins.Keys| == |d.bins| + 1;
  }

  lemma DescendPaths<B, K, V>(d: Dir<B, K, V>, e: Dir<B, K, V>, b: B, nb: B, hash: K -> nat, x: nat, to: nat)
    requires Shaped(d) && Shaped(e) && Descended(d, e, x, to)
    requires b == e.slots[LowBits(x, e.global)] && b in e.bins && nb !in e.bins
    ensures var r := Split(Roomy(e, b), b, nb, hash);
            Shaped(r) && Paths(d, r, x, DepthAt(d, x), to + 1)
  {
    hide Split, Parting, Descended, DepthAt;
    forall y: nat
      ensures var r, from := Split(Roomy(e, b), b, nb, hash), DepthAt(d, x);
              && Shaped(r)
              && DepthAt(r, y) == (if Agree(x, y, from) then Parting(x, y, from, to + 1) else DepthAt(d, y))
              && (Agree(x, y, from) || r.slots[LowBits(y, r.global)] == d.slots[LowBits(y, d.global)])
    {
      DescendAt(d, e, b, nb, hash, x, to, y);
    }
    DescendAt(d, e, b, nb, hash, x, to, x);
  }

  /** One more split on the way. */
  lemma DescendStep<B, K, V>(d: Dir<B, K, V>, e: Dir<B, K, V>, b: B, nb: B, hash: K -> nat, x: nat, to: nat)
    requires Shaped(d) && Shaped(e) && Descended(d, e, x, to)
    requires b == e.slots[LowBits(x, e.global)] && b in e.bins && nb !in e.bins
    ensures var r := Split(Roomy(e, b), b, nb, hash);
            Shaped(r) && Descended(d, r, x, to + 1) && DepthAt(r, x) == to + 1
  {
    hide Shaped, Split, Roomy, Parting, Paths;
    SplitDepths(e, b, nb, hash, x, x);
    SplitCounts(e, b, nb, hash);
    DescendPaths(d, e, b, nb, hash, x, to);
    assert e.bins[b].depth == to;
  }

  lemma DescendedPut<B, K, V>(d: Dir<B, K, V>, e: Dir<B, K, V>, b: B, items: seq<(K, V)>, x: nat, to: nat)
    requires Shaped(d) && Shaped(e) && Descended(d, e, x, to) && b == e.slots[LowBits(x, e.global)] && b in e.bins
    ensures Shaped(WithItems(e, b, items)) && Descended(d, WithItems(e, b, items), x, to)
  {
    WithItemsShaped(e, b, items);
    hide Shaped;
    var r := WithItems(e, b, items);
    assert r.bins.Keys == e.bins.Keys;
    assert |r.bins| == |r.bins.Keys| == |e.bins|;
    assert forall y: nat :: DepthAt(r, y) == DepthAt(e, y);
  }

  /** The keys of the map that agree with the bucket's hash value on its depth are the bucket's. */
  lemma BucketHolds<B, K(!new), V>(d: Dir<B, K, V>, hash: K -> nat, cap: nat, m: map<K, V>, x: nat)
    requires Holds(d, hash, cap, m)
    ensures KeySet(BinAt(d, LowBits(x, d.global)).items) == Sharing(m.Keys, hash, DepthAt(d, x), x)
    ensures |Sharing(m.Keys, hash, DepthAt(d, x), x)| == |BinAt(d, LowBits(x, d.global)).items|
  {
    var i := LowBits(x, d.global);
    var bin := BinAt(d, i);
    assert BinOk(bin, i, hash, cap);
    forall k ensures k in KeySet(bin.items) <==> k in Sharing(m.Keys, hash, bin.depth, x) {
      assert Get(d, hash, k) == if k in m then Some(m[k]) else None;
      SameBucket(d, x, hash(k));
      LookupHas(bin.items, k);
      IndexOfAgrees(x, d.global, bin.depth);
    }
    KeySetSize(bin.items);
  }

  /** Whether the key's bucket takes the pair is a matter of how many keys share its low bits. */
  lemma TakesExactly<B, K(!new), V>(d: Dir<B, K, V>, hash: K -> nat, cap: nat, m: map<K, V>, k: K)
    requires Holds(d, hash, cap, m)
    ensures var items := d.bins[Owner(d, hash, k)].items;
            HasKey(items, k) || |items| != cap
            <==> k in m || |Sharing(m.Keys + {k}, hash, DepthAt(d, hash(k)), hash(k))| <= cap
  {
    var x := hash(k);
    var bin := BinAt(d, LowBits(x, d.global));
    BucketHolds(d, hash, cap, m, x);
    BinsOk(d, hash, cap, Owner(d, hash, k));
    LookupHas(bin.items, k);
    assert Get(d, hash, k) == if k in m then Some(m[k]) else None;
    if k !in m {
      assert Sharing(m.Keys + {k}, hash, bin.depth, x) == Sharing(m.Keys, hash, bin.depth, x) + {k};
    }
  }

  /** On the way from `d`, the insertion of `k` into the map `m` has split the key's bucket as long as too many keys
      shared the key's low bits, and has done nothing else. */
  ghost predicate Splitting<B, K(!new), V>(d: Dir<B, K, V>, e: Dir<B, K, V>, hash: K -> nat, cap: nat, m: map<K, V>,
                                           k: K)
  {
    && Shaped(d) && Shaped(e)
    && Descended(d, e, hash(k), DepthAt(e, hash(k)))
    && (DepthAt(d, hash(k)) < DepthAt(e, hash(k)) ==> k !in m)
    && Crowded(m.Keys + {k}, hash, cap, hash(k), DepthAt(d, hash(k)), DepthAt(e, hash(k)))
  }

  /** `e` is `d` after binding `k`, which gives the map `m`: a key that was bound has split nothing; for a new key its
      bucket has come down to the least depth, from the old one on, at which no more than `cap` keys share its low
      bits. */
  ghost predicate Inserted<B, K(!new), V>(d: Dir<B, K, V>, e: Dir<B, K, V>, hash: K -> nat, cap: nat, m: map<K, V>,
                                          wasBound: bool, k: K)
  {
    && Shaped(d) && Shaped(e)
    && Descended(d, e, hash(k), DepthAt(e, hash(k)))
    && Crowded(m.Keys, hash, cap, hash(k), DepthAt(d, hash(k)), DepthAt(e, hash(k)))
    && (if wasBound then DepthAt(e, hash(k)) == DepthAt(d, hash(k))
        else |Sharing(m.Keys, hash, DepthAt(e, hash(k)), hash(k))| <= cap)
  }

  lemma SplittingStart<B, K(!new), V>(d: Dir<B, K, V>, hash: K -> nat, cap: nat, m: map<K, V>, k: K)
    requires Holds(d, hash, cap, m)
    ensures Splitting(d, d, hash, cap, m, k)
  {
    DescendedStart(d, hash(k));
  }

  lemma SplittingStep<B, K(!new), V>(d: Dir<B, K, V>, e: Dir<B, K, V>, b: B, nb: B, hash: K -> nat, cap: nat,
                                     m: map<K, V>, k: K)
    requires Splitting(d, e, hash, cap, m, k) && Holds(e, hash, cap, m)
    requires b == Owner(e, hash, k) && b in e.bins && nb !in e.bins
    requires !HasKey(e.bins[b].items, k) && |e.bins[b].items| == cap
    ensures Splitting(d, Split(Roomy(e, b), b, nb, hash), hash, cap, m, k)
  {
    hide Descended, Split, Roomy, Sharing, Crowded;
    TakesExactly(e, hash, cap, m, k);
    DescendStep(d, e, b, nb, hash, hash(k), DepthAt(e, hash(k)));
    CrowdedStep(m.Keys + {k}, hash, cap, hash(k), DepthAt(d, hash(k)), DepthAt(e, hash(k)));
  }

  lemma CrowdedStep<K(!new)>(s: set<K>, hash: K -> nat, cap: nat, x: nat, from: nat, to: nat)
    requires Crowded(s, hash, cap, x, from, to) && |Sharing(s, hash, to, x)| > cap
    ensures Crowded(s, hash, cap, x, from, to + 1)
  {
    hide Sharing;
  }

  lemma SplittingPut<B, K(!new), V>(d: Dir<B, K, V>, e: Dir<B, K, V>, hash: K -> nat, cap: nat, m: map<K, V>, k: K,
                                    v: V)
    requires Splitting(d, e, hash, cap, m, k) && Holds(e, hash, cap, m)
    requires var items := e.bins[Owner(e, hash, k)].items; HasKey(items, k) || |items| != cap
    ensures Inserted(d, AfterPut(e, hash, k, v), hash, cap, m[k := v], k in m, k)
    ensures DepthAt(AfterPut(e, hash, k, v), hash(k)) == DepthAt(e, hash(k))
  {
    TakesExactly(e, hash, cap, m, k);
    var b := Owner(e, hash, k);
    var items := Put(e.bins[b].items, k, v);
    assert AfterPut(e, hash, k, v) == WithItems(e, b, items);
    DescendedPut(d, e, b, items, hash(k), DepthAt(e, hash(k)));
    hide Shaped, Holds, Sharing;
    assert m[k := v].Keys == m.Keys + {k};
  }

  /** One turn of the insertion loop on the way from `d`. */
  lemma InsertionTurn<B, K(!new), V>(d: Dir<B, K, V>, e: Dir<B, K, V>, hash: K -> nat, cap: nat, m: map<K, V>, k: K,
                                     v: V, limit: nat)
    requires Holds(e, hash, cap, m) && Spread(m.Keys + {k}, hash, cap, limit) && Splitting(d, e, hash, cap, m, k)
    ensures |e.slots| == Pow2(e.global)
    ensures var b := e.slots[LowBits(hash(k), e.global)];
            && b == Owner(e, hash, k) && b in e.bins
            && (HasKey(e.bins[b].items, k) || |e.bins[b].items| != cap ==>
                  var after := WithItems(e, b, Put(e.bins[b].items, k, v));
                  && Holds(after, hash, cap, m[k := v]) && Inserted(d, after, hash, cap, m[k := v], k in m, k)
                  && after.bins[Owner(after, hash, k)].depth == e.bins[b].depth)
            && (!HasKey(e.bins[b].items, k) && |e.bins[b].items| == cap ==>
                  e.bins[b].depth < limit && Splittable(Roomy(e, b), b, hash, cap))
  {
    hide Splitting, Inserted, Spread, Splittable;
    InsertTurn(e, hash, cap, m, k, v, limit);
    var b := Owner(e, hash, k);
    if HasKey(e.bins[b].items, k) || |e.bins[b].items| != cap {
      SplittingPut(d, e, hash, cap, m, k, v);
    }
  }

  /** What an insertion does to the counts a caller can read. */
  lemma InsertedCounts<B, K(!new), V>(d: Dir<B, K, V>, e: Dir<B, K, V>, hash: K -> nat, cap: nat, m: map<K, V>,
                                      wasBound: bool, k: K)
    requires Inserted(d, e, hash, cap, m, wasBound, k)
    ensures var from, to := DepthAt(d, hash(k)), DepthAt(e, hash(k));
            && from <= to && |e.bins| == |d.bins| + (to - from)
            && e.global == (if to > d.global then to else d.global)
            && (to == from ==> e.slots == d.slots)
  {
  }

  // ---------------------------------------------------------------- counting buckets and slots

  ghost function AgreeingSlots(g: nat, depth: nat, i: nat): set<nat> {
    set j: nat | j < Pow2(g) && Agree(j, i, depth)
  }

  lemma AgreeingSlotsHalves(g: nat, depth: nat, i: nat)
    requires depth < g
    ensures var low := AgreeingSlots(g - 1, depth, i);
            && AgreeingSlots(g, depth, i) == low + Shifted(low, Pow2(g - 1))
            && low !! Shifted(low, Pow2(g - 1))
  {
    var low, p := AgreeingSlots(g - 1, depth, i), Pow2(g - 1);
    forall j: nat | j < p ensures Agree(j + p, i, depth) <==> Agree(j, i, depth) {
      TopBit(j, g - 1);
      AgreeNarrow(j + p, j, depth, g - 1);
    }
    forall j: nat | j in AgreeingSlots(g, depth, i) ensures j in low + Shifted(low, p) {
      if j >= p { assert Agree((j - p) + p, i, depth) && j - p in low; }
    }
  }

  lemma {:induction false} AgreeingSlotsSize(g: nat, depth: nat, i: nat)
    requires depth <= g
    ensures |AgreeingSlots(g, depth, i)| == Pow2(g - depth)
  {
    var s := AgreeingSlots(g, depth, i);
    if g == depth {
      forall j: nat ensures j in s <==> j == LowBits(i, depth) {
        LowBitsNarrow(i, depth, depth);
        if j < Pow2(g) { LowBitsSmall(j, g); }
      }
      assert s == {LowBits(i, depth)};
    } else {
      AgreeingSlotsSize(g - 1, depth, i);
      AgreeingSlotsHalves(g, depth, i);
      ShiftedSize(AgreeingSlots(g - 1, depth, i), Pow2(g - 1));
    }
  }

  ghost function Shifted(s: set<nat>, p: nat): set<nat> {
    set j | j in s :: j + p
  }

  lemma {:induction false} ShiftedSize(s: set<nat>, p: nat)
    ensures |Shifted(s, p)| == |s|
  {
    if s != {} {
      var x :| x in s;
      ShiftedSize(s - {x}, p);
      var all, rest := Shifted(s, p), Shifted(s - {x}, p);
      assert x + p in all && rest + {x + p} <= all;
      forall y | y in all ensures y in rest + {x + p} {
        var j :| j in s && y == j + p;
        assert j == x || j in s - {x};
      }
      assert all == rest + {x + p};
    }
  }

  ghost function SlotsOf<B, K, V>(d: Dir<B, K, V>, bs: set<B>): set<nat> {
    set j: nat | j < |d.slots| && d.slots[j] in bs
  }

  /** Each bucket of local depth `l` is named by exactly `2^(global - l)` slots. */
  lemma BucketOwnsSlots<B, K, V>(d: Dir<B, K, V>, b: B)
    requires Shaped(d) && b in d.bins
    ensures d.bins[b].depth <= d.global
    ensures |SlotsOf(d, {b})| == Pow2(d.global - d.bins[b].depth)
  {
    var i: nat :| i < |d.slots| && d.slots[i] == b;
    var depth := BinAt(d, i).depth;
    forall j: nat | j < |d.slots| ensures d.slots[j] == b <==> Agree(j, i, depth) { assert ShareOk(d, i, j); }
    assert SlotsOf(d, {b}) == AgreeingSlots(d.global, depth, i);
    AgreeingSlotsSize(d.global, depth, i);
  }

  ghost function Pick<B>(bs: set<B>): (b: B)
    requires bs != {}
    ensures b in bs
  {
    var b :| b in bs; b
  }

  /** Sum of `2^(global - local depth)` over a set of buckets. */
  ghost function SlotTotal<B, K, V>(d: Dir<B, K, V>, bs: set<B>): nat
    requires Shaped(d) && bs <= d.bins.Keys
  {
    if bs == {} then 0 else
    var b := Pick(bs);
    BucketOwnsSlots(d, b);
    Pow2(d.global - d.bins[b].depth) + SlotTotal(d, bs - {b})
  }

  lemma {:induction false} SlotTotalCounts<B, K, V>(d: Dir<B, K, V>, bs: set<B>)
    requires Shaped(d) && bs <= d.bins.Keys
    ensures SlotTotal(d, bs) == |SlotsOf(d, bs)|
  {
    if bs == {} {
      assert SlotsOf(d, bs) == {};
    } else {
      var b := Pick(bs);
      SlotTotalCounts(d, bs - {b});
      BucketOwnsSlots(d, b);
      assert SlotsOf(d, bs) == SlotsOf(d, {b}) + SlotsOf(d, bs - {b});
    }
  }

  /** The buckets' shares add up to the whole directory. */
  lemma SharesFillDirectory<B, K, V>(d: Dir<B, K, V>)
    requires Shaped(d)
    ensures SlotTotal(d, d.bins.Keys) == Pow2(d.global)
  {
    SlotTotalCounts(d, d.bins.Keys);
    forall j: nat | j < |d.slots| ensures d.slots[j] in d.bins { var _ := BinAt(d, j); }
    assert SlotsOf(d, d.bins.Keys) == Range(|d.slots|);
  }
}
