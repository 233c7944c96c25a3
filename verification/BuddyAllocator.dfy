// kernel/mm.c: a buddy allocator over several memory regions, with one free list per order and the
// header of each block kept in the block's own first 16 bytes.
module BuddyAllocator {
  import opened Powers
  import opened Seqs
  import opened Tiling
  import opened TilingSteps

  const NULL: nat := 0
  const HEADER_SIZE: nat := 16
  const PAGE_ORDER: nat := 8
  const MM_DMA: bv32 := 1
  const EINVAL: int := 22
  const ENOMEM: int := 12

  // ----- size_to_order and count_bit_set -----

  function BitCount(n: nat): nat {
    if n == 0 then 0 else n % 2 + BitCount(n / 2)
  }

  // k is the least order whose blocks hold size bytes.
  predicate IsOrder(size: nat, k: nat) {
    size <= Pow2(k) && (k > 0 ==> Pow2(k - 1) < size)
  }

  lemma {:induction false} BitCountOfOrder(n: nat, k: nat)
    requires Pow2(k) <= n < Pow2(k + 1)
    ensures BitCount(n) >= 1
    ensures BitCount(n) == 1 <==> n == Pow2(k)
  {
    if k > 0 {
      hide Pow2;
      HalfTheNumber(n, k);
      BitCountOfOrder(n / 2, k - 1);
    }
  }

  lemma HalfTheNumber(n: nat, k: nat)
    requires k > 0 && Pow2(k) <= n < Pow2(k + 1)
    ensures 0 < Pow2(k - 1) <= n / 2 < Pow2(k)
    ensures n == Pow2(k) <==> n % 2 == 0 && n / 2 == Pow2(k - 1)
  {
  }

  method CountBitSet(val: nat) returns (bits: nat)
    ensures bits == BitCount(val)
  {
    var v := val;
    bits := 0;
    while v > 0
      invariant bits + BitCount(v) == BitCount(val)
    {
      if v % 2 == 1 {
        bits := bits + 1;
      }
      v := v / 2;
    }
  }

  // s is what is left of size after k shifts to the right.
  predicate Shifted(size: nat, s: nat, k: nat) {
    s * Pow2(k) <= size < s * Pow2(k) + Pow2(k)
  }

  lemma ShiftOnce(size: nat, s: nat, k: nat)
    requires Shifted(size, s, k) && s > 0
    ensures Shifted(size, s / 2, k + 1)
    ensures Pow2(k) <= size
  {
    var h, p := s / 2, Pow2(k);
    MulAssociates(h, 2, p);
    MulAtMost(h * 2, s, p);
    MulAtMost(s, h * 2 + 1, p);
    MulAtMost(1, s, p);
    assert (h * 2 + 1) * p == h * 2 * p + p;
  }

  lemma ShiftedOut(size: nat, k: nat)
    requires Shifted(size, 0, k)
    ensures size < Pow2(k)
  {
  }

  method SizeToOrder(size: nat) returns (order: int)
    ensures order >= 0
    ensures size == 0 ==> order == 0
    ensures size > 0 ==> IsOrder(size, order)
  {
    var s, bits: nat := size, 0;
    order := -1;
    while s > 0
      invariant order >= -1
      invariant Shifted(size, s, order + 1)
      invariant order >= 0 ==> Pow2(order) <= size
      invariant bits + BitCount(s) == BitCount(size)
      invariant order == -1 ==> s == size
    {
      ShiftOnce(size, s, order + 1);
      order := order + 1;
      if s % 2 == 1 {
        bits := bits + 1;
      }
      s := s / 2;
    }
    ShiftedOut(size, order + 1);
    if order >= 0 {
      BitCountOfOrder(size, order);
    }
    if bits != 1 {
      order := order + 1;
    }
  }

  lemma OneOrder(size: nat, j: nat, k: nat)
    requires IsOrder(size, j) && IsOrder(size, k)
    ensures j == k
  {
    if j < k {
      Pow2Monotone(j, k - 1);
    } else if k < j {
      Pow2Monotone(k, j - 1);
    }
  }

  lemma PowerHasItsOrder(k: nat)
    ensures IsOrder(Pow2(k), k)
  {
  }

  // A request of 1 to 2^32 - 1 bytes, in the 32-bit arithmetic of `size += sizeof(*buffer)`.
  function GrossSize(size: nat): nat {
    (size + HEADER_SIZE) % ADDRESS_SPACE
  }

  // The block always has room for header and payload, EXCEPT when the addition wraps.
  lemma PayloadFitsUnlessSizeWraps(size: nat, k: nat)
    requires 0 < size < ADDRESS_SPACE
    requires if GrossSize(size) == 0 then k == 0 else IsOrder(GrossSize(size), k)
    ensures size + HEADER_SIZE <= Size(k) <==> size + HEADER_SIZE < ADDRESS_SPACE
  {
    if size + HEADER_SIZE >= ADDRESS_SPACE {
      Pow2Values();
      if k > 4 {
        Pow2Monotone(4, k - 1);
      } else {
        Pow2Monotone(k, 4);
      }
    }
  }

  // ----- flags -----

  // 1 << i
  function Flag(i: nat): bv32
    requires i < 32
  {
    match i
    case 0 => 0x1 case 1 => 0x2 case 2 => 0x4 case 3 => 0x8
    case 4 => 0x10 case 5 => 0x20 case 6 => 0x40 case 7 => 0x80
    case 8 => 0x100 case 9 => 0x200 case 10 => 0x400 case 11 => 0x800
    case 12 => 0x1000 case 13 => 0x2000 case 14 => 0x4000 case 15 => 0x8000
    case 16 => 0x10000 case 17 => 0x20000 case 18 => 0x40000 case 19 => 0x80000
    case 20 => 0x100000 case 21 => 0x200000 case 22 => 0x400000 case 23 => 0x800000
    case 24 => 0x1000000 case 25 => 0x2000000 case 26 => 0x4000000 case 27 => 0x8000000
    case 28 => 0x10000000 case 29 => 0x20000000 case 30 => 0x40000000 case 31 => 0x80000000
  }

  predicate Bit(flags: bv32, i: nat)
    requires i < 32
  {
    flags & Flag(i) != 0
  }

  // A region has every flag asked for.
  ghost predicate HasFlags(regionFlags: bv32, flags: bv32) {
    forall i: nat | i < 32 && Bit(flags, i) :: Bit(regionFlags, i)
  }

  // get_buffer falls back to DMA memory, which is flag 0, unless that was asked for in the first place.
  ghost predicate Serves(regionFlags: bv32, flags: bv32) {
    HasFlags(regionFlags, flags) || (!Bit(flags, 0) && Bit(regionFlags, 0))
  }

  lemma NoBits(x: bv32)
    requires forall i: nat | i < 32 :: !Bit(x, i)
    ensures x == 0
  {
    assert !Bit(x, 0) && !Bit(x, 1) && !Bit(x, 2) && !Bit(x, 3) && !Bit(x, 4) && !Bit(x, 5) && !Bit(x, 6) && !Bit(x, 7);
    assert !Bit(x, 8) && !Bit(x, 9) && !Bit(x, 10) && !Bit(x, 11) && !Bit(x, 12) && !Bit(x, 13) && !Bit(x, 14) && !Bit(x, 15);
    assert !Bit(x, 16) && !Bit(x, 17) && !Bit(x, 18) && !Bit(x, 19) && !Bit(x, 20) && !Bit(x, 21) && !Bit(x, 22) && !Bit(x, 23);
    assert !Bit(x, 24) && !Bit(x, 25) && !Bit(x, 26) && !Bit(x, 27) && !Bit(x, 28) && !Bit(x, 29) && !Bit(x, 30) && !Bit(x, 31);
  }

  lemma OneBit(i: nat)
    requires i < 32
    ensures Flag(i) & (Flag(i) - 1) == 0
  {
  }

  // What a mask takes from both sides of the test.
  lemma MaskedMatch(r: bv32, f: bv32, mask: bv32)
    requires r & f == f && f & mask != 0
    ensures r & mask != 0
  {
  }

  lemma MaskedMissing(r: bv32, f: bv32, mask: bv32)
    requires f & !r & mask != 0 && mask & (mask - 1) == 0
    ensures f & mask != 0 && r & mask == 0
  {
  }

  lemma NothingMissing(r: bv32, f: bv32)
    requires f & !r == 0
    ensures r & f == f
  {
  }

  // The test of find_buffer_in_bucket, bit by bit.
  lemma MatchesBitByBit(r: bv32, f: bv32)
    ensures r & f == f <==> HasFlags(r, f)
  {
    hide Bit;
    if r & f == f {
      forall i: nat | i < 32 && Bit(f, i) ensures Bit(r, i) {
        MatchedBit(r, f, i);
      }
    }
    if HasFlags(r, f) {
      EveryBitMatched(r, f);
    }
  }

  lemma MatchedBit(r: bv32, f: bv32, i: nat)
    requires i < 32 && r & f == f && Bit(f, i)
    ensures Bit(r, i)
  {
    hide Flag;
    MaskedMatch(r, f, Flag(i));
  }

  lemma EveryBitMatched(r: bv32, f: bv32)
    requires HasFlags(r, f)
    ensures r & f == f
  {
    hide Bit;
    var missing := f & !r;
    forall i: nat | i < 32 ensures !Bit(missing, i) {
      if Bit(missing, i) {
        MissingBit(r, f, missing, i);
      }
    }
    NoBits(missing);
    NothingMissing(r, f);
  }

  lemma MissingBit(r: bv32, f: bv32, missing: bv32, i: nat)
    requires i < 32 && missing == f & !r && Bit(missing, i)
    ensures Bit(f, i) && !Bit(r, i)
  {
    hide Flag;
    OneBit(i);
    MaskedMissing(r, f, Flag(i));
  }

  lemma DmaIsBitZero(flags: bv32)
    ensures flags & MM_DMA == 0 <==> !Bit(flags, 0)
  {
  }

  lemma DmaHasOneBit(i: nat)
    requires i < 32
    ensures Bit(MM_DMA, i) <==> i == 0
  {
  }

  // The test itself.
  predicate Matches(regionFlags: bv32, flags: bv32): (yes: bool)
    ensures yes <==> HasFlags(regionFlags, flags)
  {
    MatchesBitByBit(regionFlags, flags);
    regionFlags & flags == flags
  }

  // DMA memory is what has flag 0.
  lemma DmaFlags(regionFlags: bv32)
    ensures HasFlags(regionFlags, MM_DMA) <==> Bit(regionFlags, 0)
  {
    hide Bit;
    forall i: nat | i < 32 ensures Bit(MM_DMA, i) <==> i == 0 {
      DmaHasOneBit(i);
    }
  }

  // WHICH REGION SERVES A REQUEST: with the tests of the source, one that has every flag asked for, or is DMA
  // memory if that was not asked for.
  lemma ServesBitByBit(r: bv32, f: bv32)
    ensures Serves(r, f) <==> r & f == f || (f & MM_DMA == 0 && r & MM_DMA == MM_DMA)
  {
    hide Bit;
    MatchesBitByBit(r, f);
    MatchesBitByBit(r, MM_DMA);
    DmaIsBitZero(f);
    DmaFlags(r);
  }

  // The free lists hold exactly the free blocks, each once, in the list of its order.
  ghost predicate Buckets(bs: seq<seq<nat>>, free: Blocks) {
    && |bs| == MAX_ORDER + 1
    && (forall k | 0 <= k < |bs| :: NoDup(bs[k]))
    && (forall k, a | 0 <= k < |bs| :: a in bs[k] <==> a in free && free[a].order == k)
    && (forall a | a in free :: free[a].order < |bs|)
  }

  lemma BucketAdd(bs: seq<seq<nat>>, free: Blocks, a: nat, b: Block)
    requires Buckets(bs, free) && a !in free && b.order < |bs|
    ensures Buckets(bs[b.order := bs[b.order] + [a]], free[a := b])
  {
    var bs' := bs[b.order := bs[b.order] + [a]];
    NoDupAppend(bs[b.order], a);
    assert forall k, x | 0 <= k < |bs'| :: x in bs'[k] <==> x in bs[k] || (k == b.order && x == a);
  }

  lemma BucketDel(bs: seq<seq<nat>>, free: Blocks, a: nat)
    requires Buckets(bs, free) && a in free
    ensures Buckets(bs[free[a].order := Without(bs[free[a].order], a)], free - {a})
  {
    var k := free[a].order;
    WithoutMembers(bs[k], a);
    var bs' := bs[k := Without(bs[k], a)];
    assert forall j, x | 0 <= j < |bs'| :: x in bs'[j] <==> x in bs[j] && x != a;
  }

  lemma BucketSplit(bs: seq<seq<nat>>, free: Blocks, a: nat)
    requires Buckets(bs, free) && a in free && free[a].order > 0
    requires a + Size(free[a].order - 1) !in free
    ensures var k, b := free[a].order - 1, a + Size(free[a].order - 1);
            Buckets(bs[k + 1 := Without(bs[k + 1], a)][k := bs[k] + [a] + [b]], Split(free, a))
  {
    hide Without, NoDup, Pow2;
    var half := free[a].(order := free[a].order - 1);
    var b, k := a + Size(half.order), half.order;
    BucketDel(bs, free, a);
    var bs1, free1 := bs[k + 1 := Without(bs[k + 1], a)], free - {a};
    BucketAdd(bs1, free1, a, half);
    var bs2, free2 := bs1[k := bs1[k] + [a]], free1[a := half];
    BucketAdd(bs2, free2, b, half);
    assert bs2[k := bs2[k] + [b]] == bs1[k := bs[k] + [a] + [b]];
    assert free2[b := half] == Split(free, a);
  }

  lemma BucketMerge(bs: seq<seq<nat>>, free: Blocks, a: nat, k: nat, b: nat)
    requires Buckets(bs, free) && BuddyPair(free, a) && free[a].order < MAX_ORDER
    requires k == free[a].order && b == a + Size(k)
    ensures Buckets(bs[k := Without(Without(bs[k], a), b)][k + 1 := bs[k + 1] + [a]], Merge(free, a))
  {
    BucketDel(bs, free, a);
    var bs1, free1 := bs[k := Without(bs[k], a)], free - {a};
    BucketDel(bs1, free1, b);
    var bs2, free2 := bs1[k := Without(bs1[k], b)], free1 - {b};
    assert bs2 == bs[k := Without(Without(bs[k], a), b)];
    BucketAdd(bs2, free2, a, free[a].(order := k + 1));
    assert free2[a := free[a].(order := k + 1)] == Merge(free, a);
  }


  // The whole state of the allocator as one value; class Mm holds it in fields.
  datatype Mem = Mem(
    regions: seq<Region>,
    bucket: seq<seq<nat>>,       // mm_bucket
    headers: map<nat, Block>,    // the in-band struct mm_buffer at each address
    free: Blocks,                // blocks in the free lists
    used: Blocks,                // blocks handed out and not returned
    pages: set<nat>)             // those handed out by page_alloc, whose header the caller may overwrite

  ghost predicate HeadersOk(m: Mem) {
    && (forall a | a in m.pages :: a in m.used && m.used[a].order >= PAGE_ORDER)
    && (forall a | a in m.free :: a in m.headers && m.headers[a] == m.free[a])
    && (forall a | a in m.used && a !in m.pages :: a in m.headers && m.headers[a] == m.used[a])
  }

  // Holds at every point, also in the middle of a call.
  ghost predicate Consistent(m: Mem) {
    Heap(m.regions, m.free, m.used) && Buckets(m.bucket, m.free) && HeadersOk(m)
  }

  // Holds between public calls.
  ghost predicate Valid(m: Mem) {
    Consistent(m) && Coalesced(m.free)
  }

  // Block a is free, large enough for order, and in a region with these flags.
  ghost predicate Candidate(m: Mem, a: nat, order: nat, flags: bv32) {
    && a in m.free && order <= m.free[a].order
    && m.free[a].region < |m.regions| && HasFlags(m.regions[m.free[a].region].flags, flags)
  }

  ghost predicate NoneMatch(m: Mem, list: seq<nat>, flags: bv32) {
    forall a | a in list :: !Candidate(m, a, 0, flags)
  }

  lemma FreeBlock(m: Mem, a: nat)
    requires Consistent(m) && a in m.free
    ensures m.free[a].region < |m.regions| && Aligned(a, m.free[a].order)
    ensures a > 0 && HEADER_ORDER <= m.free[a].order <= MAX_ORDER
    ensures a in m.headers && m.headers[a] == m.free[a]
    ensures a in m.bucket[m.free[a].order]
  {
    FreeIsClear(m.regions, m.free, m.used, a);
    var all := m.free + m.used;
    assert a in all && all[a] == m.free[a];
    assert Fits(m.regions, a, all[a]);
    assert RegionOk(m.regions[m.free[a].region]);
  }

  // ----- the four ways the allocator changes its state -----

  function SplitMem(m: Mem, a: nat): Mem
    requires a in m.free && 0 < m.free[a].order < |m.bucket|
  {
    var half := m.free[a].(order := m.free[a].order - 1);
    var k, b := half.order, a + Size(half.order);
    m.(bucket := m.bucket[k + 1 := Without(m.bucket[k + 1], a)][k := m.bucket[k] + [a] + [b]],
       headers := m.headers[a := half][b := half],
       free := Split(m.free, a))
  }

  function MergeMem(m: Mem, a: nat): Mem
    requires a in m.free && m.free[a].order + 1 < |m.bucket|
  {
    var k: nat, b: nat := m.free[a].order, a + Size(m.free[a].order);
    m.(bucket := m.bucket[k := Without(Without(m.bucket[k], a), b)][k + 1 := m.bucket[k + 1] + [a]],
       headers := m.headers[a := m.free[a].(order := k + 1)],
       free := Merge(m.free, a))
  }

  function TakeMem(m: Mem, a: nat): Mem
    requires a in m.free && m.free[a].order < |m.bucket|
  {
    var k := m.free[a].order;
    m.(bucket := m.bucket[k := Without(m.bucket[k], a)],
       free := m.free - {a},
       used := m.used[a := m.free[a]])
  }

  function ReturnMem(m: Mem, a: nat): Mem
    requires a in m.used && m.used[a].order < |m.bucket|
  {
    var k := m.used[a].order;
    m.(bucket := m.bucket[k := m.bucket[k] + [a]],
       free := m.free[a := m.used[a]],
       used := m.used - {a})
  }

  lemma SplitConsistent(m: Mem, a: nat)
    requires Consistent(m) && a in m.free && m.free[a].order > HEADER_ORDER
    ensures Consistent(SplitMem(m, a))
  {
    SplitKeepsHeap(m.regions, m.free, m.used, a);
    UpperHalfUnused(m.regions, m.free, m.used, a);
    BucketSplit(m.bucket, m.free, a);
  }

  lemma MergeConsistent(m: Mem, a: nat)
    requires Consistent(m) && BuddyPair(m.free, a)
    ensures m.free[a].order < MAX_ORDER
    ensures Consistent(MergeMem(m, a))
  {
    MergeKeepsHeap(m.regions, m.free, m.used, a);
    BucketMerge(m.bucket, m.free, a, m.free[a].order, a + Size(m.free[a].order));
  }

  lemma TakeConsistent(m: Mem, a: nat)
    requires Consistent(m) && a in m.free
    ensures Consistent(TakeMem(m, a))
  {
    TakeKeepsHeap(m.regions, m.free, m.used, a);
    BucketDel(m.bucket, m.free, a);
  }

  lemma ReturnConsistent(m: Mem, a: nat)
    requires Consistent(m) && a in m.used && a !in m.pages
    ensures m.used[a].order <= MAX_ORDER
    ensures Consistent(ReturnMem(m, a))
    ensures ReturnMem(m, a).free - {a} == m.free
  {
    UsedBlock(m, a);
    ReturnKeepsHeap(m.regions, m.free, m.used, a);
    BucketAdd(m.bucket, m.free, a, m.used[a]);
  }

  lemma SlotOrder(rs: seq<Region>, r: nat, a: nat, k: nat)
    requires Slot(rs, r, a, k)
    ensures k <= rs[r].order
  {
    if rs[r].order < k {
      Pow2Monotone(rs[r].order, k);
    }
  }

  // What fill_bucket does when it succeeds: the two halves of a split block are at the end of the list,
  // the lower one is the first suitable block there, and taking it leaves a coalesced heap.
  ghost predicate Filled(m0: Mem, m1: Mem, order: nat, low: nat, flags: bv32) {
    && Consistent(m1) && m1.regions == m0.regions && m1.used == m0.used && m1.pages == m0.pages
    && |m0.bucket| == |m1.bucket| && order < MAX_ORDER
    && (forall k | 0 <= k < order :: m1.bucket[k] == m0.bucket[k])
    && (forall a | a in m0.free && a in m1.free :: m1.free[a].region == m0.free[a].region)
    && m1.bucket[order] == m0.bucket[order] + [low, low + Size(order)]
    && Candidate(m1, low, order, flags) && m1.free[low].order == order
    && Coalesced(m1.free - {low})
  }

  // A list that is the same before and after a fill has no suitable block after if it had none before.
  lemma StillNoneMatch(m0: Mem, m1: Mem, k: nat, flags: bv32)
    requires Consistent(m0) && Consistent(m1) && m1.regions == m0.regions && k <= MAX_ORDER
    requires m0.bucket[k] <= m1.bucket[k]
    requires forall a | a in m0.free && a in m1.free :: m1.free[a].region == m0.free[a].region
    requires NoneMatch(m0, m0.bucket[k], flags)
    ensures NoneMatch(m1, m0.bucket[k], flags)
  {
    forall a | a in m0.bucket[k]
      ensures !Candidate(m1, a, 0, flags)
    {
      assert a in m1.bucket[k];
      assert !Candidate(m0, a, 0, flags);
    }
  }

  ghost predicate Splittable(m0: Mem, m1: Mem, order: nat, a: nat, flags: bv32) {
    && Consistent(m1) && order < MAX_ORDER && |m0.bucket| == |m1.bucket|
    && m1.regions == m0.regions && m1.used == m0.used && m1.pages == m0.pages
    && (forall k | 0 <= k <= order :: m1.bucket[k] == m0.bucket[k])
    && (forall x | x in m0.free && x in m1.free :: m1.free[x].region == m0.free[x].region)
    && Candidate(m1, a, order + 1, flags) && m1.free[a].order == order + 1
    && Coalesced(m1.free - {a})
  }

  // What find_buffer_in_bucket finds in the list of an order.
  ghost predicate FirstFound(m: Mem, first: nat, order: nat, flags: bv32) {
    && (first == NULL ==> order > MAX_ORDER || (order < |m.bucket| && NoneMatch(m, m.bucket[order], flags)))
    && (first != NULL ==> order < |m.bucket| && Candidate(m, first, order, flags))
    && (first != NULL ==> exists i :: 0 <= i < |m.bucket[order]| && m.bucket[order][i] == first
                                      && NoneMatch(m, m.bucket[order][..i], flags))
  }

  lemma FoundSplits(m: Mem, order: nat, a: nat, flags: bv32)
    requires Valid(m) && order + 1 < |m.bucket| && a != NULL && FirstFound(m, a, order + 1, flags)
    ensures Splittable(m, m, order, a, flags)
  {
    hide Heap, HeadersOk, HasFlags;
    FewerFreeStaysCoalesced(m.free, {a});
    assert a in m.bucket[order + 1];
  }

  lemma FilledSplits(m0: Mem, m1: Mem, order: nat, low: nat, flags: bv32)
    requires Filled(m0, m1, order + 1, low, flags)
    ensures Consistent(m1) && Splittable(m0, m1, order, low, flags)
  {
    hide Heap, HeadersOk, HasFlags;
  }

  // The lower half is the first suitable block of its list.
  lemma FirstIsFilled(m0: Mem, m1: Mem, order: nat, low: nat, first: nat, flags: bv32)
    requires Valid(m0) && Filled(m0, m1, order, low, flags) && FirstFound(m1, first, order, flags)
    requires order < |m0.bucket| && NoneMatch(m0, m0.bucket[order], flags)
    ensures first == low
  {
    hide Heap, HeadersOk, HasFlags;
    StillNoneMatch(m0, m1, order, flags);
    FirstIsNew(m1, m0.bucket[order], m1.bucket[order], low, first, order, flags);
  }

  lemma SplitFills(m0: Mem, m1: Mem, order: nat, a: nat, flags: bv32)
    requires Consistent(m0) && HEADER_ORDER <= order && Splittable(m0, m1, order, a, flags)
    ensures Filled(m0, SplitMem(m1, a), order, a, flags)
  {
    hide Heap, HeadersOk, Pow2;
    FreeBlock(m1, a);
    SplitConsistent(m1, a);
    SplitKeepsHeap(m1.regions, m1.free, m1.used, a);
    SplitKeepsCoalesced(m1.free, a);
    SplitRegions(m0, m1, a, a + Size(order));
  }

  lemma SplitRegions(m0: Mem, m1: Mem, a: nat, b: nat)
    requires Consistent(m0) && Consistent(m1) && a in m1.free && 0 < m1.free[a].order <= MAX_ORDER
    requires b == a + Size(m1.free[a].order - 1) && m1.regions == m0.regions
    requires forall x | x in m0.free && x in m1.free :: m1.free[x].region == m0.free[x].region
    ensures forall x | x in m0.free && x in SplitMem(m1, a).free :: SplitMem(m1, a).free[x].region == m0.free[x].region
  {
    if b in m0.free {
      FreeBlock(m0, b);
      FreeBlock(m1, a);
      var r0, r1 := m0.free[b].region, m1.free[a].region;
      FreeIsClear(m0.regions, m0.free, m0.used, b);
      FreeIsClear(m1.regions, m1.free, m1.used, a);
      OneRegionContains(m0.regions, r0, b);
      OneRegionContains(m0.regions, r1, b);
    }
  }

  class Mm {
    var regions: seq<Region>           // mm_region_list
    var bucket: seq<seq<nat>>          // mm_bucket
    var headers: map<nat, Block>       // the in-band struct mm_buffer at each address

    ghost var free: Blocks
    ghost var used: Blocks
    ghost var pages: set<nat>

    ghost function View(): Mem
      reads this
    {
      Mem(regions, bucket, headers, free, used, pages)
    }

    constructor ()
      ensures Valid(View())
      ensures regions == [] && free == map[] && used == map[] && pages == {}
    {
      regions, headers := [], map[];
      bucket := seq(MAX_ORDER + 1, _ => []);
      free, used, pages := map[], map[], {};
    }

    method AddRegion(start: nat, size: nat, flags: bv32) returns (retval: int)
      requires Valid(View())
      requires forall k | size == Pow2(k) ::
                 var r := Region(start, k, flags);
                 RegionOk(r) && forall i | 0 <= i < |regions| :: Apart(regions[i], r)
      modifies this
      ensures Valid(View())
      ensures used == old(used) && pages == old(pages)
      ensures retval == 0 || retval == -EINVAL
      ensures retval == 0 <==> exists k :: size == Pow2(k)
      ensures retval != 0 ==> View() == old(View())
      ensures retval == 0 ==> |regions| == |old(regions)| + 1 && regions[..|old(regions)|] == old(regions)
      ensures retval == 0 ==> var r := regions[|old(regions)|];
                size == Pow2(r.order) && r == Region(start, r.order, flags)
                && free == old(free)[start := Block(r.order, |old(regions)|)]
    {
      var bits := CountBitSet(size);
      if bits != 1 {
        forall k ensures size != Pow2(k) {
          if size == Pow2(k) { BitCountOfOrder(size, k); }
        }
        return -EINVAL;
      }
      var order := SizeToOrder(size);
      OneBitIsPower(size, order);
      var r := Region(start, order, flags);
      assert RegionOk(r);
      AddRegionKeepsHeap(regions, free, used, r);
      BucketAdd(bucket, free, start, Block(order, |regions|));
      headers := headers[start := Block(order, |regions|)];
      free := free[start := Block(order, |regions|)];
      regions := regions + [r];
      bucket := bucket[order := bucket[order] + [start]];
      return 0;
    }

    // find_buffer_in_bucket: the first block of the list whose region has all the flags.
    method FindBufferInBucket(order: nat, flags: bv32) returns (buffer: nat)
      requires Consistent(View())
      ensures FirstFound(View(), buffer, order, flags)
    {
      hide Matches, HasFlags;
      if order > MAX_ORDER {
        return NULL;
      }
      var list, i := bucket[order], 0;
      while i < |list|
        invariant 0 <= i <= |list|
        invariant NoneMatch(View(), list[..i], flags)
      {
        assert list[i] in list;
        FreeBlock(View(), list[i]);
        if Matches(regions[headers[list[i]].region].flags, flags) {
          return list[i];
        }
        assert list[..i + 1] == list[..i] + [list[i]];
        i := i + 1;
      }
      assert list[..i] == list;
      return NULL;
    }

    // The start of fill_bucket: a block of the next order, made by a recursive call if there is none.
    method NextOrderBlock(order: nat, flags: bv32) returns (retval: int, buffer1: nat)
      requires Valid(View()) && HEADER_ORDER <= order <= MAX_ORDER
      requires NoneMatch(View(), bucket[order], flags)
      modifies this
      ensures retval == 0 || retval == -ENOMEM
      ensures retval == 0 ==> Splittable(old(View()), View(), order, buffer1, flags)
      ensures retval != 0 ==> View() == old(View()) && forall a :: !Candidate(View(), a, order, flags)
      decreases MAX_ORDER + 1 - order, 0
    {
      hide Consistent, Coalesced, Candidate, Filled, Splittable;
      ghost var m0 := View();
      retval := 0;
      buffer1 := FindBufferInBucket(order + 1, flags);
      if buffer1 == NULL {
        ghost var low: nat;
        retval, low := FillBucket(order + 1, flags);
        if retval != 0 {
          NoneLarger(m0, order, order + 1, flags);
          return;
        }
        FilledSplits(m0, View(), order, low, flags);
        buffer1 := FindBufferInBucket(order + 1, flags);
        FirstIsFilled(m0, View(), order + 1, low, buffer1, flags);
        assert buffer1 == low; // so the assertion of the source cannot fail
      } else {
        FoundSplits(View(), order, buffer1, flags);
      }
    }

    // fill_bucket: splits a block of the next order into two of this order. On failure nothing has
    // moved and no block of this order or a larger one would do.
    method FillBucket(order: nat, flags: bv32) returns (retval: int, ghost low: nat)
      requires Valid(View()) && HEADER_ORDER <= order
      requires order <= MAX_ORDER ==> NoneMatch(View(), bucket[order], flags)
      modifies this
      ensures retval == 0 || retval == -ENOMEM
      ensures retval == 0 ==> Filled(old(View()), View(), order, low, flags)
      ensures retval != 0 ==> View() == old(View()) && forall a :: !Candidate(View(), a, order, flags)
      decreases MAX_ORDER + 1 - order, 1
    {
      ghost var m0 := View();
      var buffer1: nat;
      if order > MAX_ORDER {
        return -ENOMEM, NULL;
      }
      retval, buffer1 := NextOrderBlock(order, flags);
      low := buffer1;
      if retval != 0 {
        return;
      }
      ghost var m1 := View();
      FreeBlock(m1, buffer1);
      SplitFills(m0, m1, order, buffer1, flags);

      Halve(buffer1, order);
    }

    // The list surgery at the end of fill_bucket.
    method Halve(buffer1: nat, order: nat)
      requires buffer1 in free && free[buffer1].order == order + 1 < |bucket|
      requires buffer1 in headers && headers[buffer1] == free[buffer1]
      modifies this`bucket, this`headers, this`free
      ensures View() == SplitMem(old(View()), buffer1)
    {
      var buffer2 := buffer1 + Size(order);
      var half := Block(order, headers[buffer1].region);
      bucket := bucket[order + 1 := Without<nat>(bucket[order + 1], buffer1)];
      bucket := bucket[order := bucket[order] + [buffer1] + [buffer2]];
      headers := headers[buffer1 := half][buffer2 := half];
      free := Split(free, buffer1);
    }

    // The list surgery at the end of defragment.
    method Join(low: nat, order: nat)
      requires low in free && free[low].order == order && order + 1 < |bucket|
      requires low in headers && headers[low] == free[low]
      modifies this`bucket, this`headers, this`free
      ensures View() == MergeMem(old(View()), low)
      ensures bucket[order + 1] == old(bucket)[order + 1] + [low]
    {
      var high: nat := low + Size(order);
      bucket := bucket[order := Without<nat>(Without<nat>(bucket[order], low), high)];
      bucket := bucket[order + 1 := bucket[order + 1] + [low]];
      headers := headers[low := headers[low].(order := headers[low].order + 1)];
      free := Merge(free, low);
    }

    // The list_foreach of defragment.
    method IsListed(order: nat, buffer: nat) returns (found: bool)
      requires order < |bucket|
      ensures found <==> buffer in bucket[order]
    {
      var list, i := bucket[order], 0;
      while i < |list|
        invariant 0 <= i <= |list|
        invariant buffer !in list[..i]
      {
        if list[i] == buffer {
          return true;
        }
        i := i + 1;
      }
      assert list[..i] == list;
      return false;
    }

    // defragment: merges a returned block with its buddy as often as the buddy is free too.
    method Defragment(buffer: nat)
      requires Consistent(View()) && buffer in free && Coalesced(free - {buffer})
      modifies this`headers, this`free, this`bucket
      ensures Valid(View())
      decreases MAX_ORDER - free[buffer].order
    {
      ghost var m := View();
      FreeBlock(m, buffer);
      var order := headers[buffer].order;
      assert bucket[order] != []; // the assertion of the source, which cannot fail
      BitDecidesBuddy(buffer, order);
      var low: nat, buffer2: nat := buffer, buffer + Size(order);
      if BitSet(buffer, order) {
        low, buffer2 := buffer - Size(order), buffer - Size(order);
      }
      var high: nat := low + Size(order);
      var found := IsListed(order, buffer2);
      if !found {
        NoFreeBuddy(free, buffer, buffer2);
        return;
      }
      FreeBlock(m, buffer2);
      if headers[low].region != headers[high].region {
        NoFreeBuddy(free, buffer, buffer2);
        return;
      }
      assert BuddyPair(free, low);
      MergeConsistent(m, low);
      MergeLeavesOnlyNew(free, buffer, low);

      FreeBlock(m, low);
      Join(low, order);
      Defragment(low);
    }

    method GetBuffer(order: nat, flags: bv32) returns (buffer: nat)
      requires Valid(View()) && HEADER_ORDER <= order <= MAX_ORDER
      modifies this
      ensures Consistent(View()) && regions == old(regions) && used == old(used) && pages == old(pages)
      ensures buffer == NULL ==> View() == old(View()) && forall a :: !Usable(View(), a, order, flags)
      ensures buffer != NULL ==> Usable(View(), buffer, order, flags) && free[buffer].order == order
      ensures buffer != NULL ==> Coalesced(free - {buffer})
      ensures buffer != NULL && !Candidate(View(), buffer, order, flags) ==>
                forall a :: !Candidate(old(View()), a, order, flags)
      decreases flags & MM_DMA == 0
    {
      buffer := FindBufferInBucket(order, flags);
      if buffer != NULL {
        FewerFreeStaysCoalesced(free, {buffer});
        FirstHasOrder(View(), order, buffer, flags);
        return;
      }
      ghost var m0 := View();
      var retval: int;
      ghost var low: nat;
      retval, low := FillBucket(order, flags);
      if retval == 0 {
        StillNoneMatch(m0, View(), order, flags);
        buffer := FindBufferInBucket(order, flags);
        FirstIsNew(View(), m0.bucket[order], bucket[order], low, buffer, order, flags);
        assert buffer == low; // so the assertion of the source cannot fail
        return;
      }
      if flags & MM_DMA != 0 {
        return NULL;
      }
      buffer := GetBuffer(order, MM_DMA);
      assert forall a :: Usable(m0, a, order, flags) ==> Usable(m0, a, order, MM_DMA);
      assert m0 == old(View());
    }

    // NULL means that no aligned range of the needed size, clear of all outstanding blocks, exists in any
    // permitted region; otherwise one more block is outstanding and nothing else about them changed.
    method Kmalloc(size: nat, flags: bv32) returns (ptr: nat)
      requires Valid(View()) && size + HEADER_SIZE < ADDRESS_SPACE
      modifies this
      ensures Valid(View()) && regions == old(regions) && pages == old(pages)
      ensures ptr == NULL ==> View() == old(View())
      ensures ptr == NULL && size > 0 ==> forall k, r, a :: IsOrder(size + HEADER_SIZE, k) ==>
                                            !OpenSlot(View(), r, a, k, flags)
      ensures ptr != NULL ==> size > 0 && ptr > HEADER_SIZE && ptr - HEADER_SIZE !in old(used)
      ensures ptr != NULL ==> var b := ptr - HEADER_SIZE;
                b in used && used == old(used)[b := used[b]] && b !in pages
                && IsOrder(size + HEADER_SIZE, used[b].order) && used[b].region < |regions|
                && Slot(regions, used[b].region, b, used[b].order)
                && OpenSlot(old(View()), used[b].region, b, used[b].order, flags)
                && (HasFlags(regions[used[b].region].flags, flags)
                    || forall r, a :: !MatchingSlot(old(View()), r, a, used[b].order, flags))
    {
      hide Heap, Buckets, HeadersOk, Coalesced;
      if size == 0 {
        return NULL;
      }
      var order := SizeToOrder(size + HEADER_SIZE);
      OrderAboveHeader(size + HEADER_SIZE, order);
      var gross := size + HEADER_SIZE;
      forall k | IsOrder(gross, k) ensures k == order {
        OneOrder(gross, k, order);
      }
      ghost var m0 := View();
      if order > MAX_ORDER {
        NoSlotTooLarge(m0, order, flags);
        return NULL;
      }
      var buffer := GetBuffer(order, flags);
      if buffer == NULL {
        NoUsableNoSlot(m0, order, flags);
        return NULL;
      }
      ghost var m1 := View();
      FreeBlock(m1, buffer);
      TakenIsOpen(m0, m1, buffer, order, flags);
      FreeIsNoPage(m1, buffer);
      TakeConsistent(m1, buffer);
      Take(buffer, order);
      return buffer + HEADER_SIZE;
    }

    // The list_del of kmalloc.
    method Take(buffer: nat, order: nat)
      requires buffer in free && free[buffer].order == order < |bucket|
      modifies this`bucket, this`free, this`used
      ensures View() == TakeMem(old(View()), buffer)
    {
      bucket := bucket[order := Without<nat>(bucket[order], buffer)];
      used := used[buffer := free[buffer]];
      free := free - {buffer};
    }

    method Kfree(ptr: nat)
      requires Valid(View())
      requires ptr == NULL || (ptr > HEADER_SIZE && ptr - HEADER_SIZE in used && ptr - HEADER_SIZE !in pages)
      modifies this`headers, this`free, this`bucket, this`used
      ensures Valid(View())
      ensures ptr == NULL ==> View() == old(View())
      ensures ptr != NULL ==> used == old(used) - {ptr - HEADER_SIZE}
      ensures ptr != NULL && used == map[] ==> free == WholeRegions(regions)
    {
      if ptr == NULL {
        return;
      }
      var buffer := ptr - HEADER_SIZE;
      ReturnConsistent(View(), buffer);
      assert forall k | 0 <= k < |bucket| :: buffer !in bucket[k]; // its links are its own, as the source asserts
      Release(buffer);
      Defragment(buffer);
      AllBack(View());
    }

    // The list_add of kfree.
    method Release(buffer: nat)
      requires buffer in used && buffer in headers && headers[buffer] == used[buffer]
      requires headers[buffer].order < |bucket|
      modifies this`free, this`bucket, this`used
      ensures View() == ReturnMem(old(View()), buffer)
      ensures var k := old(used)[buffer].order; bucket == old(bucket)[k := old(bucket)[k] + [buffer]]
    {
      var order := headers[buffer].order;
      bucket := bucket[order := bucket[order] + [buffer]];
      free := free[buffer := used[buffer]];
      used := used - {buffer};
    }

    // On exhaustion the header size is subtracted from NULL, so the result is not NULL.
    method PageAlloc(flags: bv32, order: nat) returns (page: nat)
      requires Valid(View()) && order + PAGE_ORDER <= MAX_ORDER
      modifies this
      ensures Valid(View()) && regions == old(regions)
      ensures page == ADDRESS_SPACE - HEADER_SIZE || page in pages
      ensures page !in pages ==> View() == old(View())
      ensures page !in pages ==> forall k, r, a :: k == order + PAGE_ORDER ==> !OpenSlot(View(), r, a, k, flags)
      ensures page in pages ==> page !in old(used) && page in used && pages == old(pages) + {page}
      ensures page in pages ==> used == old(used)[page := used[page]] && used[page].order == order + PAGE_ORDER
      ensures page in pages ==> OpenSlot(old(View()), used[page].region, page, order + PAGE_ORDER, flags)
      ensures page in pages ==> page != ADDRESS_SPACE - HEADER_SIZE
    {
      PageRequest(order + PAGE_ORDER);
      var size := Pow2(order + PAGE_ORDER) - HEADER_SIZE;
      assert size + HEADER_SIZE == Pow2(order + PAGE_ORDER);
      var ptr := Kmalloc(size, flags);
      if ptr == NULL {
        TopIsNoPage(View());
        return ADDRESS_SPACE - HEADER_SIZE;
      }
      page := ptr - HEADER_SIZE;
      OneOrder(size + HEADER_SIZE, used[page].order, order + PAGE_ORDER);
      MarkedPageValid(View(), page);
      pages := pages + {page};
    }

    // The owner of a page writes over its first 16 bytes.
    method OverwriteHeader(page: nat, bytes: Block)
      requires Valid(View()) && page in pages
      modifies this`headers
      ensures Valid(View()) && headers == old(headers)[page := bytes]
    {
      headers := headers[page := bytes];
    }

    // Rebuilds the header from the arguments alone. Addresses are added in 32 bits.
    method PageFree(ptr: nat, order: nat)
      requires Valid(View()) && order + PAGE_ORDER <= MAX_ORDER
      requires InRegion(regions, ptr, order + PAGE_ORDER) ==> ptr in pages && used[ptr].order == order + PAGE_ORDER
      modifies this`headers, this`free, this`bucket, this`used, this`pages
      ensures Valid(View())
      ensures !InRegion(regions, ptr, order + PAGE_ORDER) ==> View() == old(View())
      ensures InRegion(regions, ptr, order + PAGE_ORDER) ==> used == old(used) - {ptr} && pages == old(pages) - {ptr}
    {
      hide Consistent, Coalesced;
      var i := 0;
      while i < |regions| && !Seen(regions[i], ptr)
        invariant 0 <= i <= SeenAt(regions, ptr)
      {
        i := i + 1;
      }
      if i == |regions| {
        return;
      }
      if (ptr + Pow2(order + PAGE_ORDER)) % ADDRESS_SPACE > End(regions[i]) % ADDRESS_SPACE {
        return;
      }
      PowerHasItsOrder(order + PAGE_ORDER);
      var bucketNumber := SizeToOrder(Pow2(order + PAGE_ORDER));
      OneOrder(Pow2(order + PAGE_ORDER), bucketNumber, order + PAGE_ORDER);
      HeaderIsRebuilt(View(), ptr, Block(bucketNumber, i));
      headers := headers[ptr := Block(bucketNumber, i)];
      pages := pages - {ptr};
      Kfree(ptr + HEADER_SIZE);
    }
  }

  // Once every block is back, each region is one free block; and two states with the same outstanding
  // blocks have the same free blocks, so a call that is undone leaves no trace.
  lemma AllBack(m: Mem)
    requires Valid(m)
    ensures m.used == map[] ==> m.free == WholeRegions(m.regions)
  {
    if m.used == map[] {
      AllReturned(m.regions, m.free);
    }
  }

  lemma UndoneWithoutTrace(m0: Mem, m1: Mem)
    requires Valid(m0) && Valid(m1) && m0.regions == m1.regions && m0.used == m1.used
    ensures m0.free == m1.free
  {
    FreeIsDeterminedByUsed(m0.regions, m0.free, m1.free, m0.used);
  }

  // page_free's test of a region. The end of a region that reaches the end of memory is 0.
  predicate Seen(r: Region, x: nat) {
    r.start <= x < End(r) % ADDRESS_SPACE
  }

  // The first region that passes it, |rs| if there is none.
  function SeenAt(rs: seq<Region>, x: nat): (i: nat)
    ensures i <= |rs|
    ensures i < |rs| ==> Seen(rs[i], x)
    ensures forall j | 0 <= j < i :: !Seen(rs[j], x)
  {
    if rs == [] || Seen(rs[0], x) then 0
    else
      var i := SeenAt(rs[1..], x);
      assert forall j | 1 <= j < i + 1 :: rs[j] == rs[1..][j - 1];
      i + 1
  }

  // A range that page_free accepts.
  predicate InRegion(rs: seq<Region>, a: nat, k: nat) {
    var i := SeenAt(rs, a);
    i < |rs| && (a + Size(k)) % ADDRESS_SPACE <= End(rs[i]) % ADDRESS_SPACE
  }

  lemma SeenContains(r: Region, x: nat)
    requires RegionOk(r)
    ensures Seen(r, x) <==> Contains(r, x) && End(r) < ADDRESS_SPACE
  {
    if End(r) == ADDRESS_SPACE {
      assert End(r) % ADDRESS_SPACE == 0;
    } else {
      assert End(r) % ADDRESS_SPACE == End(r);
    }
  }

  lemma SeenIsOwn(m: Mem, a: nat)
    requires Consistent(m) && SeenAt(m.regions, a) < |m.regions|
    ensures a in m.used ==> m.used[a].region == SeenAt(m.regions, a)
  {
    var i := SeenAt(m.regions, a);
    assert RegionOk(m.regions[i]);
    SeenContains(m.regions[i], a);
    OneRegionContains(m.regions, i, a);
    if a in m.used {
      UsedBlock(m, a);
    }
  }

  lemma HeaderIsRebuilt(m: Mem, a: nat, b: Block)
    requires Valid(m) && a in m.pages && SeenAt(m.regions, a) < |m.regions|
    requires b.region == SeenAt(m.regions, a) && (a in m.used ==> b.order == m.used[a].order)
    ensures a in m.used && b == m.used[a] && a > 0
    ensures Valid(m.(headers := m.headers[a := b], pages := m.pages - {a}))
  {
    SeenIsOwn(m, a);
    UsedBlock(m, a);
  }

  // WHAT page_free ACCEPTS, where nothing wraps: exactly the ranges that lie inside one region.
  lemma AcceptedRange(rs: seq<Region>, a: nat, k: nat)
    requires RegionsOk(rs) && a + Size(k) < ADDRESS_SPACE
    requires forall i | 0 <= i < |rs| :: End(rs[i]) < ADDRESS_SPACE
    ensures InRegion(rs, a, k) <==> exists i :: 0 <= i < |rs| && rs[i].start <= a && a + Size(k) <= End(rs[i])
  {
    hide Size, Aligned;
    assert (a + Size(k)) % ADDRESS_SPACE == a + Size(k);
    var j := SeenAt(rs, a);
    forall i | 0 <= i < |rs| ensures (Seen(rs[i], a) <==> Contains(rs[i], a)) && End(rs[i]) % ADDRESS_SPACE == End(rs[i]) {
      assert RegionOk(rs[i]);
      SeenContains(rs[i], a);
    }
    forall i | 0 <= i < |rs| && rs[i].start <= a && a + Size(k) <= End(rs[i]) ensures i == j {
      SizeIsPositive(k);
      assert Seen(rs[i], a);
      OneRegionContains(rs, i, a);
      OneRegionContains(rs, j, a);
    }
  }

  lemma SizeIsPositive(k: nat)
    ensures Size(k) > 0
  {
  }

  lemma PageInUse(m: Mem, a: nat)
    requires Consistent(m) && a in m.pages
    ensures a in m.used && RegionsOk(m.regions)
  {
  }

  // WHEN A PAGE CAN BE FREED: exactly when its region does not reach the end of the address space.
  lemma PageIsAccepted(m: Mem, a: nat)
    requires Valid(m) && a in m.pages
    ensures a in m.used && m.used[a].region < |m.regions|
    ensures InRegion(m.regions, a, m.used[a].order) <==> End(m.regions[m.used[a].region]) < ADDRESS_SPACE
  {
    hide Consistent, HeadersOk, Aligned, Pow2;
    PageInUse(m, a);
    UsedBlock(m, a);
    var r, k := m.used[a].region, m.used[a].order;
    assert forall i | 0 <= i < |m.regions| :: RegionOk(m.regions[i]);
    forall i | 0 <= i < |m.regions|
      ensures Seen(m.regions[i], a) <==> i == r && End(m.regions[r]) < ADDRESS_SPACE
    {
      SeenContains(m.regions[i], a);
      if Contains(m.regions[i], a) {
        OneRegionContains(m.regions, i, a);
      }
      SlotContains(m.regions, r, a, k);
    }
    if End(m.regions[r]) < ADDRESS_SPACE {
      assert SeenAt(m.regions, a) == r;
      assert (a + Size(k)) % ADDRESS_SPACE == a + Size(k) && End(m.regions[r]) % ADDRESS_SPACE == End(m.regions[r]);
    }
  }

  lemma SlotContains(rs: seq<Region>, r: nat, a: nat, k: nat)
    requires Slot(rs, r, a, k)
    ensures Contains(rs[r], a)
  {
  }

  // A block that may serve the request, directly or by the fallback.
  ghost predicate Usable(m: Mem, a: nat, order: nat, flags: bv32) {
    Candidate(m, a, order, flags) || (!Bit(flags, 0) && Candidate(m, a, order, MM_DMA))
  }

  // An aligned range in a region with the flags that no outstanding block meets.
  ghost predicate MatchingSlot(m: Mem, r: nat, a: nat, k: nat, flags: bv32) {
    Slot(m.regions, r, a, k) && HasFlags(m.regions[r].flags, flags) && Clear(m.used, a, k)
  }

  ghost predicate OpenSlot(m: Mem, r: nat, a: nat, k: nat, flags: bv32) {
    Slot(m.regions, r, a, k) && Serves(m.regions[r].flags, flags) && Clear(m.used, a, k)
  }

  // COMPLETENESS OF THE SEARCH: a coalesced heap has a free block of at least the order in a region with
  // the flags exactly if there is room for such a block at all.
  lemma BlockForEverySlot(m: Mem, order: nat, flags: bv32)
    requires Valid(m)
    ensures (exists a :: Candidate(m, a, order, flags)) <==> (exists r, a :: MatchingSlot(m, r, a, order, flags))
  {
    if r, a :| MatchingSlot(m, r, a, order, flags) {
      var d := ClearSlotIsInOneFreeBlock(m.regions, m.free, m.used, r, a, order);
      assert Candidate(m, d, order, flags);
    }
    if a :| Candidate(m, a, order, flags) {
      CandidateHasSlot(m, a, order, flags);
    }
  }

  lemma CandidateHasSlot(m: Mem, a: nat, order: nat, flags: bv32)
    requires Consistent(m) && Candidate(m, a, order, flags)
    ensures MatchingSlot(m, m.free[a].region, a, order, flags)
  {
    FreeIsClear(m.regions, m.free, m.used, a);
    AlignedLess(a, order, m.free[a].order);
    Pow2Monotone(order, m.free[a].order);
  }

  lemma OpenSlotHasUsable(m: Mem, r: nat, a: nat, order: nat, flags: bv32) returns (d: nat)
    requires Valid(m) && OpenSlot(m, r, a, order, flags)
    ensures Usable(m, d, order, flags)
  {
    d := ClearSlotIsInOneFreeBlock(m.regions, m.free, m.used, r, a, order);
  }

  lemma NoUsableNoSlot(m: Mem, order: nat, flags: bv32)
    requires Valid(m) && forall a :: !Usable(m, a, order, flags)
    ensures forall r, a :: !OpenSlot(m, r, a, order, flags)
  {
    forall r: nat, a: nat ensures !OpenSlot(m, r, a, order, flags) {
      if OpenSlot(m, r, a, order, flags) {
        var d := OpenSlotHasUsable(m, r, a, order, flags);
      }
    }
  }

  lemma NoSlotTooLarge(m: Mem, order: nat, flags: bv32)
    requires Valid(m) && order > MAX_ORDER
    ensures forall r, a :: !OpenSlot(m, r, a, order, flags)
  {
    assert forall r | 0 <= r < |m.regions| :: RegionOk(m.regions[r]);
    forall r: nat, a: nat ensures !OpenSlot(m, r, a, order, flags) {
      if OpenSlot(m, r, a, order, flags) {
        SlotOrder(m.regions, r, a, order);
      }
    }
  }

  // What page_alloc asks kmalloc for fills a block of order k exactly.
  lemma PageRequest(k: nat)
    requires PAGE_ORDER <= k <= MAX_ORDER
    ensures HEADER_SIZE < Pow2(k) < ADDRESS_SPACE
    ensures forall j :: IsOrder(Pow2(k), j) <==> j == k
  {
    Pow2Values();
    Pow2Monotone(8, k);
    Pow2Monotone(k, 31);
    var size := Pow2(k);
    forall j: nat ensures IsOrder(size, j) ==> j == k {
      if IsOrder(size, j) {
        OneOrder(size, j, k);
      }
    }
  }

  // The block that kmalloc takes, seen from the state before the call.
  lemma TakenIsOpen(m0: Mem, m1: Mem, a: nat, order: nat, flags: bv32)
    requires Valid(m0) && Consistent(m1) && m1.regions == m0.regions && m1.used == m0.used
    requires Usable(m1, a, order, flags) && m1.free[a].order == order
    requires !Candidate(m1, a, order, flags) ==> forall x :: !Candidate(m0, x, order, flags)
    ensures a !in m0.used && m1.free[a].region < |m0.regions|
    ensures OpenSlot(m0, m1.free[a].region, a, order, flags)
    ensures HasFlags(m0.regions[m1.free[a].region].flags, flags) || forall r, x :: !MatchingSlot(m0, r, x, order, flags)
  {
    FreeIsClear(m1.regions, m1.free, m1.used, a);
    BlockForEverySlot(m0, order, flags);
  }

  lemma FirstHasOrder(m: Mem, order: nat, first: nat, flags: bv32)
    requires Consistent(m) && order <= MAX_ORDER
    requires exists i :: 0 <= i < |m.bucket[order]| && m.bucket[order][i] == first && NoneMatch(m, m.bucket[order][..i], flags)
    ensures first in m.free && m.free[first].order == order
  {
    assert first in m.bucket[order];
  }

  lemma UsedBlock(m: Mem, a: nat)
    requires Consistent(m) && a in m.used
    ensures m.used[a].region < |m.regions| && Slot(m.regions, m.used[a].region, a, m.used[a].order)
    ensures RegionAt(m.regions, a) == m.used[a].region
    ensures 0 < a && a + Size(m.used[a].order) <= ADDRESS_SPACE && HEADER_ORDER <= m.used[a].order <= MAX_ORDER
  {
    var all := m.free + m.used;
    assert a in all && all[a] == m.used[a];
    assert Fits(m.regions, a, all[a]) && RegionOk(m.regions[all[a].region]);
    SlotOrder(m.regions, all[a].region, a, all[a].order);
    OneRegionContains(m.regions, m.used[a].region, a);
  }

  lemma OrderAboveHeader(size: nat, k: nat)
    requires size > HEADER_SIZE && IsOrder(size, k)
    ensures k > HEADER_ORDER
  {
    Pow2Values();
    if k <= 4 {
      Pow2Monotone(k, 4);
    }
  }

  lemma MarkedPageValid(m: Mem, a: nat)
    requires Valid(m) && a in m.used && m.used[a].order >= PAGE_ORDER
    ensures Valid(m.(pages := m.pages + {a}))
  {
  }

  lemma FreeIsNoPage(m: Mem, a: nat)
    requires Consistent(m) && a in m.free
    ensures a !in m.pages && m.free[a].order < |m.bucket|
  {
    FreeBlock(m, a);
  }

  // No page starts at 0xfffffff0, the result of a failed page_alloc.
  lemma TopIsNoPage(m: Mem)
    requires Consistent(m)
    ensures ADDRESS_SPACE - HEADER_SIZE !in m.pages
  {
    var top := ADDRESS_SPACE - HEADER_SIZE;
    Pow2Values();
    if top in m.pages {
      UsedBlock(m, top);
      Pow2Monotone(8, m.used[top].order);
    }
  }

  lemma NoneLarger(m: Mem, order: nat, larger: nat, flags: bv32)
    requires Consistent(m) && order <= MAX_ORDER && NoneMatch(m, m.bucket[order], flags)
    requires larger == order + 1 && forall a :: !Candidate(m, a, larger, flags)
    ensures forall a :: !Candidate(m, a, order, flags)
  {
    forall a ensures !Candidate(m, a, order, flags) {
      assert !Candidate(m, a, larger, flags);
      if a in m.free && m.free[a].order == order {
        assert a in m.bucket[order];
      }
    }
  }

  lemma FirstIsNew(m: Mem, before: seq<nat>, list: seq<nat>, low: nat, first: nat, order: nat, flags: bv32)
    requires |before| < |list| && list[..|before|] == before && list[|before|] == low
    requires NoneMatch(m, before, flags) && Candidate(m, low, order, flags)
    requires first != NULL ==> Candidate(m, first, order, flags)
    requires first != NULL ==> exists i :: 0 <= i < |list| && list[i] == first && NoneMatch(m, list[..i], flags)
    requires first == NULL ==> NoneMatch(m, list, flags)
    ensures first == low
  {
    assert low in list && Candidate(m, low, 0, flags);
    assert Candidate(m, first, 0, flags);
    forall j | |before| < j <= |list|
      ensures low in list[..j]
    {
      assert list[..j][|before|] == low;
    }
    assert forall j | 0 <= j < |before| :: list[j] == before[j] && before[j] in before;
    var i :| 0 <= i < |list| && list[i] == first && NoneMatch(m, list[..i], flags);
  }

  // The search of defragment found no free block like x in its buddy's place.
  lemma NoFreeBuddy(free: Blocks, x: nat, y: nat)
    requires x in free && Aligned(x, free[x].order) && Coalesced(free - {x})
    requires BitSet(x, free[x].order) ==> x == y + Size(free[x].order)
    requires !BitSet(x, free[x].order) ==> y == x + Size(free[x].order)
    requires y in free ==> free[y] != free[x]
    ensures Coalesced(free)
  {
    var k := free[x].order;
    BitDecidesBuddy(x, k);
    forall a: nat ensures !BuddyPair(free, a) {
      if a != x && BuddyPair(free, a) {
        assert !BuddyPair(free - {x}, a);
        assert a + Size(k) == x;
        HalvesAligned(a, k);
      }
    }
  }

  lemma MergeLeavesOnlyNew(free: Blocks, x: nat, low: nat)
    requires Coalesced(free - {x}) && BuddyPair(free, low)
    requires x == low || x == low + Size(free[low].order)
    ensures Coalesced(Merge(free, low) - {low})
  {
    var high := low + Size(free[low].order);
    FewerFreeStaysCoalesced(free - {x}, {low, high});
    assert Merge(free, low) - {low} == free - {x} - {low, high};
  }

  lemma OneBitIsPower(n: nat, k: nat)
    requires BitCount(n) == 1 && IsOrder(n, k)
    ensures n == Pow2(k)
  {
    if k > 0 && n < Pow2(k) {
      BitCountOfOrder(n, k - 1);
    }
  }
}
