// The memory handed to the buddy allocator, seen as blocks: an address maps to the header of the
// block that starts there. Everything here is about values; BuddyAllocator.dfy ties the lists and
// headers of kernel/mm.c to it.
module Tiling {
  import opened Powers

  const MAX_ORDER: nat := 31
  const HEADER_ORDER: nat := 4 // sizeof(struct mm_buffer) == 16
  const ADDRESS_SPACE: nat := 0x1_0000_0000

  // struct mm_region; its size is always 2^order (mm_add_region refuses the rest)
  datatype Region = Region(start: nat, order: nat, flags: bv32)

  // struct mm_buffer: the bucket number and the region pointer, as an index into the region list
  datatype Block = Block(order: nat, region: nat)

  type Blocks = map<nat, Block>

  function Size(order: nat): nat { Pow2(order) }

  function End(r: Region): nat { r.start + Size(r.order) }

  predicate RegionOk(r: Region) {
    && 0 < r.start
    && HEADER_ORDER <= r.order <= MAX_ORDER
    && Aligned(r.start, r.order)
    && End(r) <= ADDRESS_SPACE
  }

  predicate Apart(r: Region, q: Region) {
    End(r) <= q.start || End(q) <= r.start
  }

  ghost predicate RegionsOk(rs: seq<Region>) {
    && (forall i | 0 <= i < |rs| :: RegionOk(rs[i]))
    && (forall i, j | 0 <= i < j < |rs| :: Apart(rs[i], rs[j]))
  }

  // An aligned range of 2^k bytes inside region r.
  predicate Slot(rs: seq<Region>, r: nat, a: nat, k: nat) {
    r < |rs| && Aligned(a, k) && rs[r].start <= a && a + Size(k) <= End(rs[r])
  }

  predicate Fits(rs: seq<Region>, a: nat, b: Block) {
    HEADER_ORDER <= b.order && Slot(rs, b.region, a, b.order)
  }

  predicate Contains(r: Region, x: nat) {
    r.start <= x < End(r)
  }

  // The region that contains x; |rs| if there is none.
  function RegionAt(rs: seq<Region>, x: nat): (i: nat)
    ensures i <= |rs|
    ensures i < |rs| ==> Contains(rs[i], x)
    ensures forall j | 0 <= j < i :: !Contains(rs[j], x)
  {
    if rs == [] then 0
    else if Contains(rs[0], x) then 0
    else
      var i := RegionAt(rs[1..], x);
      assert forall j | 0 <= j < i :: rs[1..][j] == rs[j + 1];
      assert forall j | 1 <= j < i + 1 :: !Contains(rs[j], x) by {
        forall j | 1 <= j < i + 1 ensures !Contains(rs[j], x) { assert rs[1..][j - 1] == rs[j]; }
      }
      i + 1
  }

  lemma OneRegionContains(rs: seq<Region>, r: nat, x: nat)
    requires RegionsOk(rs) && r < |rs| && Contains(rs[r], x)
    ensures RegionAt(rs, x) == r
  {
    var q := RegionAt(rs, x);
    assert q <= r;
    assert q < r ==> Apart(rs[q], rs[r]);
  }

  ghost predicate Covered(all: Blocks, x: nat) {
    exists a :: a in all && a <= x < a + Size(all[a].order)
  }

  // The blocks cut the regions into pieces: each fits, no two meet, no byte is left out.
  ghost predicate Tiles(rs: seq<Region>, all: Blocks) {
    AllFit(rs, all) && NoneMeet(all) && AllCovered(rs, all)
  }

  ghost predicate AllFit(rs: seq<Region>, all: Blocks) {
    forall a | a in all :: Fits(rs, a, all[a])
  }

  ghost predicate NoneMeet(all: Blocks) {
    forall a, b | a in all && b in all && a < b :: a + Size(all[a].order) <= b
  }

  ghost predicate AllCovered(rs: seq<Region>, all: Blocks) {
    forall r, x | 0 <= r < |rs| && Contains(rs[r], x) :: Covered(all, x)
  }

  // a is the lower of two free buddies: the block of the next order that they would form is aligned,
  // and the headers agree on order and region.
  predicate BuddyPair(free: Blocks, a: nat) {
    && a in free
    && Aligned(a, free[a].order + 1)
    && a + Size(free[a].order) in free
    && free[a + Size(free[a].order)] == free[a]
  }

  ghost predicate Coalesced(free: Blocks) {
    forall a :: !BuddyPair(free, a)
  }

  // No outstanding block meets [a, a + 2^k).
  ghost predicate Clear(used: Blocks, a: nat, k: nat) {
    forall u | u in used :: u + Size(used[u].order) <= a || a + Size(k) <= u
  }

  ghost predicate Heap(rs: seq<Region>, free: Blocks, used: Blocks) {
    RegionsOk(rs) && free.Keys !! used.Keys && Tiles(rs, free + used)
  }

  // The free block that holds a given slot.
  ghost predicate Holds(free: Blocks, d: nat, r: nat, a: nat, k: nat) {
    && d in free && free[d].region == r && k <= free[d].order
    && d <= a && a + Size(k) <= d + Size(free[d].order)
  }

  // In a coalesced heap every aligned slot that no outstanding block meets lies inside ONE free block,
  // however the heap got there. Induction on the order of the slot: its halves lie in free blocks;
  // if those are the halves themselves, they are two free buddies.
  lemma {:induction false} ClearSlotIsInOneFreeBlock(rs: seq<Region>, free: Blocks, used: Blocks, r: nat, a: nat, k: nat)
    returns (d: nat)
    requires Heap(rs, free, used) && Coalesced(free)
    requires Slot(rs, r, a, k) && Clear(used, a, k)
    ensures Holds(free, d, r, a, k)
    decreases k
  {
    if k == 0 {
      d := ClearByteIsFree(rs, free, used, r, a);
    } else {
      SplitSlot(rs, used, r, a, k - 1);
      d := ClearSlotIsInOneFreeBlock(rs, free, used, r, a, k - 1);
      var e := ClearSlotIsInOneFreeBlock(rs, free, used, r, a + Size(k - 1), k - 1);
      FreeIsClear(rs, free, used, d);
      FreeIsClear(rs, free, used, e);
      d := JoinHalves(free, r, a, k - 1, d, e);
    }
  }

  lemma JoinHalves(free: Blocks, r: nat, a: nat, k: nat, d: nat, e: nat) returns (f: nat)
    requires Coalesced(free) && Aligned(a, k + 1)
    requires Holds(free, d, r, a, k) && Aligned(d, free[d].order)
    requires Holds(free, e, r, a + Size(k), k) && Aligned(e, free[e].order)
    ensures Holds(free, f, r, a, k + 1)
  {
    var i, j := free[d].order, free[e].order;
    if k < i {
      f := d;
      Nested(a, k + 1, d, i);
    } else if k < j {
      f := e;
      HoldsLowerHalf(a, k, e, j);
    } else {
      assert d == a && e == a + Size(k);
      assert BuddyPair(free, a);
      f := d;
    }
  }

  lemma ClearByteIsFree(rs: seq<Region>, free: Blocks, used: Blocks, r: nat, a: nat) returns (d: nat)
    requires Heap(rs, free, used) && Slot(rs, r, a, 0) && Clear(used, a, 0)
    ensures Holds(free, d, r, a, 0)
  {
    var all := free + used;
    assert Covered(all, a);
    d :| d in all && d <= a < d + Size(all[d].order);
    assert d in free;
    SameRegion(rs, all, d, r, a);
  }

  lemma SplitSlot(rs: seq<Region>, used: Blocks, r: nat, a: nat, k: nat)
    requires Slot(rs, r, a, k + 1) && Clear(used, a, k + 1)
    ensures Slot(rs, r, a, k) && Clear(used, a, k)
    ensures Slot(rs, r, a + Size(k), k) && Clear(used, a + Size(k), k)
  {
    HalvesAligned(a, k);
  }

  // A block of order j > k that holds the upper half of an aligned slot of order k + 1 starts no later.
  lemma HoldsLowerHalf(a: nat, k: nat, e: nat, j: nat)
    requires k < j && Aligned(a, k + 1) && Aligned(e, j)
    requires e <= a + Size(k)
    ensures e <= a
  {
    if a < e {
      AlignedLess(e, k + 1, j);
      AlignedApart(a, e, k + 1);
    }
  }

  lemma SameRegion(rs: seq<Region>, all: Blocks, d: nat, r: nat, x: nat)
    requires RegionsOk(rs) && d in all && Fits(rs, d, all[d])
    requires r < |rs| && rs[r].start <= x < End(rs[r])
    requires d <= x < d + Size(all[d].order)
    ensures all[d].region == r
  {
    var q := all[d].region;
    assert q < r ==> Apart(rs[q], rs[r]);
    assert r < q ==> Apart(rs[r], rs[q]);
  }

  // A free block is itself a clear slot.
  lemma FreeIsClear(rs: seq<Region>, free: Blocks, used: Blocks, a: nat)
    requires Heap(rs, free, used) && a in free
    ensures Slot(rs, free[a].region, a, free[a].order)
    ensures Clear(used, a, free[a].order)
  {
    var all := free + used;
    assert Fits(rs, a, all[a]);
    forall u | u in used
      ensures u + Size(used[u].order) <= a || a + Size(free[a].order) <= u
    {
      assert u in all && all[u] == used[u] && all[a] == free[a];
    }
  }

  lemma FreeBlocksDisjoint(rs: seq<Region>, free: Blocks, used: Blocks, a: nat, b: nat)
    requires Heap(rs, free, used) && a in free && b in free && a < b
    ensures a + Size(free[a].order) <= b
  {
    var all := free + used;
    assert all[a] == free[a] && a in all && b in all;
  }

  // HISTORY INDEPENDENCE. The outstanding blocks alone decide the free blocks: two coalesced heaps with
  // the same regions and the same outstanding blocks have the same free blocks, whatever calls led there.
  lemma FreeIsDeterminedByUsed(rs: seq<Region>, free1: Blocks, free2: Blocks, used: Blocks)
    requires Heap(rs, free1, used) && Coalesced(free1)
    requires Heap(rs, free2, used) && Coalesced(free2)
    ensures free1 == free2
  {
    forall a | a in free1
      ensures a in free2 && free2[a] == free1[a]
    {
      FreeIsAlsoFree(rs, free1, free2, used, a);
    }
    forall a | a in free2
      ensures a in free1
    {
      FreeIsAlsoFree(rs, free2, free1, used, a);
    }
  }

  lemma FreeIsAlsoFree(rs: seq<Region>, free1: Blocks, free2: Blocks, used: Blocks, a: nat)
    requires Heap(rs, free1, used) && Coalesced(free1)
    requires Heap(rs, free2, used) && Coalesced(free2)
    requires a in free1
    ensures a in free2 && free2[a] == free1[a]
  {
    var d := InsideFree(rs, free1, free2, used, a);
    var e := InsideFree(rs, free2, free1, used, d);
    assert e <= a < e + Size(free1[e].order);
    if e < a {
      FreeBlocksDisjoint(rs, free1, used, e, a);
    }
    SameSize(free1[a].order, free2[d].order);
  }

  lemma InsideFree(rs: seq<Region>, free1: Blocks, free2: Blocks, used: Blocks, a: nat) returns (d: nat)
    requires Heap(rs, free1, used)
    requires Heap(rs, free2, used) && Coalesced(free2)
    requires a in free1
    ensures Holds(free2, d, free1[a].region, a, free1[a].order)
  {
    FreeIsClear(rs, free1, used, a);
    d := ClearSlotIsInOneFreeBlock(rs, free2, used, free1[a].region, a, free1[a].order);
  }

  lemma SameSize(i: nat, j: nat)
    requires i <= j && Size(j) <= Size(i)
    ensures i == j
  {
    Pow2Monotone(i, j);
  }

  // What mm_add_region puts in: one free block per region, of the region's order.
  ghost function WholeRegions(rs: seq<Region>): Blocks {
    map a | a in (set i | 0 <= i < |rs| :: rs[i].start) :: Block(rs[RegionAt(rs, a)].order, RegionAt(rs, a))
  }

  lemma WholeRegionAt(rs: seq<Region>, r: nat)
    requires RegionsOk(rs) && r < |rs|
    ensures rs[r].start in WholeRegions(rs)
    ensures WholeRegions(rs)[rs[r].start] == Block(rs[r].order, r)
  {
    OneRegionContains(rs, r, rs[r].start);
  }

  lemma WholeRegionsHeap(rs: seq<Region>)
    requires RegionsOk(rs)
    ensures Heap(rs, WholeRegions(rs), map[]) && Coalesced(WholeRegions(rs))
  {
    var all := WholeRegions(rs);
    assert all + map[] == all;
    forall a | a in all
      ensures exists r :: 0 <= r < |rs| && a == rs[r].start && all[a] == Block(rs[r].order, r)
    {
      var r :| 0 <= r < |rs| && a == rs[r].start;
      WholeRegionAt(rs, r);
    }
    forall a, b | a in all && b in all && a < b
      ensures a + Size(all[a].order) <= b
    {
      OneRegionContains(rs, all[b].region, b);
      if b < a + Size(all[a].order) {
        OneRegionContains(rs, all[a].region, b);
      }
    }
    forall r, x | 0 <= r < |rs| && rs[r].start <= x < End(rs[r])
      ensures Covered(all, x)
    {
      WholeRegionAt(rs, r);
    }
    forall a
      ensures !BuddyPair(all, a)
    {
    }
  }

  // Once every block has been returned, each region is again exactly one free block.
  lemma AllReturned(rs: seq<Region>, free: Blocks)
    requires Heap(rs, free, map[]) && Coalesced(free)
    ensures free == WholeRegions(rs)
  {
    WholeRegionsHeap(rs);
    FreeIsDeterminedByUsed(rs, free, WholeRegions(rs), map[]);
  }
}

// How splitting, merging, taking and returning a block keep the heap.
module TilingSteps {
  import opened Powers
  import opened Tiling

  function Split(free: Blocks, a: nat): Blocks
    requires a in free && free[a].order > 0
  {
    var half := free[a].(order := free[a].order - 1);
    free[a := half][a + Size(half.order) := half]
  }

  function Merge(free: Blocks, a: nat): Blocks
    requires a in free
  {
    (free - {a + Size(free[a].order)})[a := free[a].(order := free[a].order + 1)]
  }

  lemma UnionPut(m: Blocks, n: Blocks, x: nat, v: Block)
    requires x !in n
    ensures m[x := v] + n == (m + n)[x := v]
  {
  }

  lemma UnionDrop(m: Blocks, n: Blocks, x: nat)
    requires x !in n
    ensures (m - {x}) + n == (m + n) - {x}
  {
  }

  lemma UpperHalfIsNoBlock(rs: seq<Region>, all: Blocks, a: nat, k: nat)
    requires Tiles(rs, all) && a in all && all[a].order == k + 1
    ensures a + Size(k) !in all
  {
  }

  lemma SplitFits(rs: seq<Region>, all: Blocks, a: nat)
    requires AllFit(rs, all) && a in all && all[a].order > HEADER_ORDER
    ensures AllFit(rs, Split(all, a))
  {
    HalvesAligned(a, all[a].order - 1);
    var all' := Split(all, a);
    forall c | c in all' ensures Fits(rs, c, all'[c]) {
      assert c in all ==> Fits(rs, c, all[c]);
      assert Fits(rs, a, all[a]);
    }
  }

  lemma SplitNoneMeet(all: Blocks, a: nat)
    requires NoneMeet(all) && a in all && all[a].order > 0
    ensures NoneMeet(Split(all, a))
  {
    hide Size;
    TwoHalves(all[a].order);
  }

  lemma TwoHalves(k: nat)
    requires k > 0
    ensures Size(k) == Size(k - 1) + Size(k - 1) && Size(k - 1) > 0
  {
  }

  // If every old block is made of new ones, nothing is uncovered.
  lemma RefinedIsCovered(rs: seq<Region>, all: Blocks, all': Blocks)
    requires AllCovered(rs, all)
    requires forall c, x | c in all && c <= x < c + Size(all[c].order) :: Covered(all', x)
    ensures AllCovered(rs, all')
  {
    forall r, x | 0 <= r < |rs| && Contains(rs[r], x)
      ensures Covered(all', x)
    {
      assert Covered(all, x);
    }
  }

  lemma SplitTiles(rs: seq<Region>, all: Blocks, a: nat)
    requires Tiles(rs, all) && a in all && all[a].order > HEADER_ORDER
    ensures Tiles(rs, Split(all, a))
  {
    SplitFits(rs, all, a);
    SplitNoneMeet(all, a);
    SplitCovers(all, a);
    RefinedIsCovered(rs, all, Split(all, a));
  }

  lemma SplitCovers(all: Blocks, a: nat)
    requires NoneMeet(all) && a in all && all[a].order > 0
    ensures forall c, x | c in all && c <= x < c + Size(all[c].order) :: Covered(Split(all, a), x)
  {
    var all', b := Split(all, a), a + Size(all[a].order - 1);
    assert b !in all;
    forall c, x | c in all && c <= x < c + Size(all[c].order)
      ensures Covered(all', x)
    {
      if c == a {
        assert a in all' && b in all';
      } else {
        assert c in all' && all'[c] == all[c];
      }
    }
  }

  lemma SplitUnion(free: Blocks, used: Blocks, a: nat)
    requires a in free && free[a].order > 0
    requires a !in used && a + Size(free[a].order - 1) !in used
    ensures Split(free, a) + used == Split(free + used, a)
    ensures free.Keys !! used.Keys ==> Split(free, a).Keys !! used.Keys
  {
    var half := free[a].(order := free[a].order - 1);
    var b := a + Size(half.order);
    UnionPut(free, used, a, half);
    UnionPut(free[a := half], used, b, half);
    assert Split(free, a).Keys == free.Keys + {b};
  }

  lemma UpperHalfUnused(rs: seq<Region>, free: Blocks, used: Blocks, a: nat)
    requires Tiles(rs, free + used) && free.Keys !! used.Keys
    requires a in free && free[a].order > 0
    ensures a + Size(free[a].order - 1) !in free
    ensures a + Size(free[a].order - 1) !in used
  {
    hide Tiles, Pow2;
    var all := free + used;
    assert a in all && all[a] == free[a];
    assert forall x :: x in free || x in used ==> x in all;
    UpperHalfIsNoBlock(rs, all, a, free[a].order - 1);
  }

  lemma SplitKeepsHeap(rs: seq<Region>, free: Blocks, used: Blocks, a: nat)
    requires Heap(rs, free, used) && a in free && free[a].order > HEADER_ORDER
    ensures a + Size(free[a].order - 1) !in free
    ensures Heap(rs, Split(free, a), used)
  {
    UpperHalfUnused(rs, free, used, a);
    SplitUnion(free, used, a);
    SplitTiles(rs, free + used, a);
  }

  // After a split the only free buddies are the two halves.
  lemma SplitKeepsCoalesced(free: Blocks, a: nat)
    requires a in free && free[a].order > 0 && Aligned(a, free[a].order)
    requires a + Size(free[a].order - 1) !in free
    requires Coalesced(free - {a})
    ensures Coalesced(Split(free, a) - {a})
  {
    var k := free[a].order - 1;
    HalvesAligned(a, k);
    var rest, rest' := free - {a}, Split(free, a) - {a};
    forall c ensures !BuddyPair(rest', c) {
      assert !BuddyPair(rest, c);
    }
  }

  lemma MergeFits(rs: seq<Region>, all: Blocks, a: nat)
    requires AllFit(rs, all) && BuddyPair(all, a)
    ensures AllFit(rs, Merge(all, a))
  {
    var all', b := Merge(all, a), a + Size(all[a].order);
    forall c | c in all' ensures Fits(rs, c, all'[c]) {
      assert c in all ==> Fits(rs, c, all[c]);
      assert Fits(rs, b, all[b]);
    }
  }

  lemma MergeNoneMeet(all: Blocks, a: nat)
    requires NoneMeet(all) && BuddyPair(all, a)
    ensures NoneMeet(Merge(all, a))
  {
  }

  lemma MergeCovers(all: Blocks, a: nat)
    requires BuddyPair(all, a)
    ensures forall c, x | c in all && c <= x < c + Size(all[c].order) :: Covered(Merge(all, a), x)
  {
    var all', b := Merge(all, a), a + Size(all[a].order);
    forall c, x | c in all && c <= x < c + Size(all[c].order)
      ensures Covered(all', x)
    {
      if c == a || c == b {
        assert a in all';
      } else {
        assert c in all' && all'[c] == all[c];
      }
    }
  }

  // Two buddies of one region leave room for the next order: mm_bucket is never indexed past its end.
  lemma BuddiesBelowRegionOrder(rs: seq<Region>, all: Blocks, a: nat)
    requires RegionsOk(rs) && AllFit(rs, all) && BuddyPair(all, a)
    ensures all[a].order < MAX_ORDER
  {
    var k, b := all[a].order, a + Size(all[a].order);
    assert Fits(rs, a, all[a]) && Fits(rs, b, all[b]);
    var r := all[a].region;
    if rs[r].order <= k {
      Pow2Monotone(rs[r].order, k);
    }
  }

  lemma MergeTiles(rs: seq<Region>, all: Blocks, a: nat)
    requires Tiles(rs, all) && BuddyPair(all, a)
    ensures Tiles(rs, Merge(all, a))
  {
    MergeFits(rs, all, a);
    MergeNoneMeet(all, a);
    MergeCovers(all, a);
    RefinedIsCovered(rs, all, Merge(all, a));
  }

  lemma MergeUnion(free: Blocks, used: Blocks, a: nat)
    requires BuddyPair(free, a) && free.Keys !! used.Keys
    ensures Merge(free, a) + used == Merge(free + used, a)
    ensures Merge(free, a).Keys !! used.Keys
    ensures BuddyPair(free + used, a)
  {
    var b := a + Size(free[a].order);
    UnionDrop(free, used, b);
    UnionPut(free - {b}, used, a, free[a].(order := free[a].order + 1));
  }

  lemma MergeKeepsHeap(rs: seq<Region>, free: Blocks, used: Blocks, a: nat)
    requires Heap(rs, free, used) && BuddyPair(free, a)
    ensures Heap(rs, Merge(free, a), used)
    ensures free[a].order < MAX_ORDER
  {
    MergeUnion(free, used, a);
    BuddiesBelowRegionOrder(rs, free + used, a);
    MergeTiles(rs, free + used, a);
  }

  lemma FewerFreeStaysCoalesced(free: Blocks, xs: set<nat>)
    requires Coalesced(free)
    ensures Coalesced(free - xs)
  {
    forall a ensures !BuddyPair(free - xs, a) {
      assert !BuddyPair(free, a);
    }
  }

  // Handing a block out and taking it back moves it between the two maps and changes no boundary.
  lemma TakeKeepsHeap(rs: seq<Region>, free: Blocks, used: Blocks, a: nat)
    requires Heap(rs, free, used) && a in free
    ensures Heap(rs, free - {a}, used[a := free[a]])
  {
    hide Tiles, RegionsOk;
    assert (free - {a}) + used[a := free[a]] == free + used;
  }

  lemma ReturnKeepsHeap(rs: seq<Region>, free: Blocks, used: Blocks, a: nat)
    requires Heap(rs, free, used) && a in used
    ensures Heap(rs, free[a := used[a]], used - {a})
    ensures a !in free
  {
    hide Tiles, RegionsOk;
    assert free[a := used[a]] + (used - {a}) == free + used;
  }

  lemma BlocksAvoidRegion(rs: seq<Region>, all: Blocks, r: Region, a: nat)
    requires AllFit(rs, all) && forall i | 0 <= i < |rs| :: Apart(rs[i], r)
    requires a in all
    ensures a + Size(all[a].order) <= r.start || End(r) <= a
    ensures Fits(rs + [r], a, all[a]) && all[a].region < |rs|
  {
    assert Fits(rs, a, all[a]);
    assert Apart(rs[all[a].region], r);
  }

  lemma AddRegionTiles(rs: seq<Region>, all: Blocks, r: Region)
    requires Tiles(rs, all) && RegionOk(r) && forall i | 0 <= i < |rs| :: Apart(rs[i], r)
    ensures r.start !in all
    ensures Tiles(rs + [r], all[r.start := Block(r.order, |rs|)])
  {
    var rs', all' := rs + [r], all[r.start := Block(r.order, |rs|)];
    forall a | a in all
      ensures a + Size(all[a].order) <= r.start || End(r) <= a
      ensures Fits(rs', a, all[a])
    {
      BlocksAvoidRegion(rs, all, r, a);
    }
    assert AllFit(rs', all');
    forall q: nat, x: nat | q < |rs'| && Contains(rs'[q], x)
      ensures Covered(all', x)
    {
      if q < |rs| {
        assert Contains(rs[q], x) && Covered(all, x);
        var c :| c in all && c <= x < c + Size(all[c].order);
        assert c in all' && all'[c] == all[c];
      } else {
        assert r.start in all';
      }
    }
  }

  lemma AddRegionKeepsHeap(rs: seq<Region>, free: Blocks, used: Blocks, r: Region)
    requires Heap(rs, free, used) && Coalesced(free)
    requires RegionOk(r) && forall i | 0 <= i < |rs| :: Apart(rs[i], r)
    ensures r.start !in free && r.start !in used
    ensures Heap(rs + [r], free[r.start := Block(r.order, |rs|)], used)
    ensures Coalesced(free[r.start := Block(r.order, |rs|)])
  {
    var all, free' := free + used, free[r.start := Block(r.order, |rs|)];
    AddRegionTiles(rs, all, r);
    UnionPut(free, used, r.start, Block(r.order, |rs|));
    forall a | a in free
      ensures free[a].region < |rs|
    {
      assert a in all && all[a] == free[a];
      BlocksAvoidRegion(rs, all, r, a);
    }
    NewRegionKeepsCoalesced(free, r.start, Block(r.order, |rs|));
  }

  lemma NewRegionKeepsCoalesced(free: Blocks, x: nat, b: Block)
    requires Coalesced(free) && x !in free
    requires forall a | a in free :: free[a].region < b.region
    ensures Coalesced(free[x := b])
  {
    var free' := free[x := b];
    forall a ensures !BuddyPair(free', a) {
      assert !BuddyPair(free, a);
    }
  }
}
