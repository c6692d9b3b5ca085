/** Page ids under the page table's hash.  `std::hash` of an int is the int itself, converted to an
    unsigned 64-bit word. */
module PageHash {
  import opened Bits
  import opened Common
  import opened Directory

  const BUCKET_SIZE := 4
  const MAX_DEPTH := 30

  function HashInt(x: int): nat {
    if x >= 0 then x else if x + 0x1_0000_0000_0000_0000 >= 0 then x + 0x1_0000_0000_0000_0000 else 0
  }

  predicate IsPageId(x: int) {
    -0x8000_0000 <= x < 0x8000_0000
  }

  lemma Pow2Of30()
    ensures Pow2(30) == 0x4000_0000
  {
    assert Pow2(2) == 4 && Pow2(4) == 16 && Pow2(6) == 64 && Pow2(8) == 256 && Pow2(10) == 1024;
    Pow2Sum(10, 10);
    Pow2Sum(20, 10);
  }

  lemma OffsetOf(x: int, h: nat, r: nat, q: nat)
    requires IsPageId(x) && h == HashInt(x) && r < 0x4000_0000 && h == r + 0x4000_0000 * q
    ensures x == r || x == r + 0x4000_0000 || x == r - 0x4000_0000 || x == r - 0x8000_0000
  {
  }

  /** A 32-bit id is fixed by its low 30 hash bits and one of four offsets. */
  lemma IdFromLowBits(x: int)
    requires IsPageId(x)
    ensures var r := LowBits(HashInt(x), 30);
            x == r || x == r + 0x4000_0000 || x == r - 0x4000_0000 || x == r - 0x8000_0000
  {
    var h := HashInt(x);
    Pow2Of30();
    SplitAt(h, 30);
    OffsetOf(x, h, LowBits(h, 30), Shr(h, 30));
  }

  /** At most four 32-bit ids share their low 30 hash bits, and a bucket holds four: whatever pages
      are resident, inserting one more into the page table ends, and the directory never needs
      more than 30 bits, so `1 << global_depth_` stays within an int. */
  lemma PageIdsSpread(s: set<int>)
    requires forall x :: x in s ==> IsPageId(x)
    ensures Spread(s, HashInt, BUCKET_SIZE, MAX_DEPTH)
  {
    forall r: nat ensures |HashClass(s, HashInt, MAX_DEPTH, r)| <= BUCKET_SIZE {
      var four := {r, r + 0x4000_0000, r - 0x4000_0000, r - 0x8000_0000};
      forall x | x in HashClass(s, HashInt, MAX_DEPTH, r) ensures x in four { IdFromLowBits(x); }
      SubsetSize<int>(HashClass(s, HashInt, MAX_DEPTH, r), four);
    }
  }
}
