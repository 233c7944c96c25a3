// kernel/mcache.c: a slab cache. Each slab holds five objects, a bitmap and a reference count, and is
// in the list of empty, partial or full slabs.
module Mcache {
  import opened Seqs
  import opened Powers
  import Tiling
  import B = BuddyAllocator

  const NULL: nat := 0
  const NUM_OBJECTS: nat := 5
  const PAGE_SIZE: nat := 256
  const DESCRIPTOR_SIZE: nat := 25 // struct mcache_slab and one byte of bitmap
  const EXHAUSTED: nat := Tiling.ADDRESS_SPACE - B.HEADER_SIZE // what page_alloc returns when it has no page

  // ----- the bitmap byte -----

  // 1 << i
  function Mask(i: nat): bv8
    requires i < 8
  {
    match i
    case 0 => 0x01 case 1 => 0x02 case 2 => 0x04 case 3 => 0x08
    case 4 => 0x10 case 5 => 0x20 case 6 => 0x40 case 7 => 0x80
  }

  predicate TestBit(b: bv8, i: nat)
    requires i < 8
  {
    b & Mask(i) != 0
  }

  function SetBit(b: bv8, i: nat): bv8
    requires i < 8
  {
    b | Mask(i)
  }

  function ClearBit(b: bv8, i: nat): bv8
    requires i < 8
  {
    b & !Mask(i)
  }

  lemma BitsAreIndependent(b: bv8, i: nat, j: nat)
    requires i < 8 && j < 8
    ensures TestBit(SetBit(b, i), j) <==> i == j || TestBit(b, j)
    ensures TestBit(ClearBit(b, i), j) <==> i != j && TestBit(b, j)
  {
    hide TestBit, SetBit, ClearBit;
    SetIsIndependent(b, i, j);
    ClearIsIndependent(b, i, j);
  }

  lemma SetIsIndependent(b: bv8, i: nat, j: nat)
    requires i < 8 && j < 8
    ensures TestBit(SetBit(b, i), j) <==> i == j || TestBit(b, j)
  {
  }

  lemma ClearIsIndependent(b: bv8, i: nat, j: nat)
    requires i < 8 && j < 8
    ensures TestBit(ClearBit(b, i), j) <==> i != j && TestBit(b, j)
  {
  }

  // The number of objects in use among the first n.
  function Count(b: bv8, n: nat): (c: nat)
    requires n <= 8
    ensures c <= n
  {
    if n == 0 then 0 else Count(b, n - 1) + (if TestBit(b, n - 1) then 1 else 0)
  }

  lemma {:induction false} CountExtremes(b: bv8, n: nat)
    requires n <= 8
    ensures Count(b, n) == n <==> forall i | 0 <= i < n :: TestBit(b, i)
    ensures Count(b, n) == 0 <==> forall i | 0 <= i < n :: !TestBit(b, i)
  {
    if n > 0 {
      CountExtremes(b, n - 1);
    }
  }

  // Changing one bit changes the count by one.
  lemma {:induction false} CountUpdate(b: bv8, c: bv8, n: nat, i: nat)
    requires n <= 8 && i < 8
    requires forall j | 0 <= j < 8 :: j != i ==> (TestBit(b, j) <==> TestBit(c, j))
    ensures i < n && !TestBit(b, i) && TestBit(c, i) ==> Count(c, n) == Count(b, n) + 1
    ensures i >= n ==> Count(c, n) == Count(b, n)
  {
    if n > 0 {
      CountUpdate(b, c, n - 1, i);
    }
  }

  // The address of the i-th object of a slab whose buffer is at `slab`.
  function ObjectAt(slab: nat, size: nat, i: nat): nat {
    if i == 0 then slab else ObjectAt(slab, size, i - 1) + size
  }

  lemma {:induction false} ObjectAtOffset(slab: nat, size: nat, i: nat)
    ensures ObjectAt(slab, size, i) == slab + size * i
  {
    if i > 0 {
      ObjectAtOffset(slab, size, i - 1);
      Distributes(size, i, 1);
    }
  }

  function SlabEnd(slab: nat, size: nat): nat {
    slab + NUM_OBJECTS * size
  }

  // struct mcache_slab
  class Slab {
    const descriptor: nat // where the structure itself lies
    const cacheSize: nat  // slab->cache->size
    const buffer: nat
    var refcount: nat
    var bitmap: seq<bv8>

    constructor (descriptor: nat, cacheSize: nat, buffer: nat)
      requires cacheSize > 0
      ensures Valid() && refcount == 0
      ensures this.descriptor == descriptor && this.cacheSize == cacheSize && this.buffer == buffer
      ensures forall i | 0 <= i < NUM_OBJECTS :: !Taken(i)
    {
      this.descriptor, this.cacheSize, this.buffer, refcount := descriptor, cacheSize, buffer, 0;
      bitmap := [0];
      new;
      forall i | 0 <= i < 8 ensures !TestBit(0, i) {}
      CountExtremes(0, NUM_OBJECTS);
    }

    // slab->size
    function Size(): nat {
      NUM_OBJECTS * cacheSize
    }

    ghost predicate Valid()
      reads this`refcount, this`bitmap
    {
      cacheSize > 0 && |bitmap| == 1 && refcount == Count(bitmap[0], NUM_OBJECTS)
    }

    predicate Taken(i: nat)
      requires i < NUM_OBJECTS && |bitmap| == 1
      reads this`bitmap
    {
      TestBit(bitmap[0], i)
    }

    // The test of find_buffer_slab_in_list, in 32 bits.
    predicate Contains(ptr: nat) {
      buffer <= ptr < (buffer + Size()) % Tiling.ADDRESS_SPACE
    }

    // The loop of slab_alloc_object: the first free object is taken. Its address is computed in 32 bits.
    method AllocObject() returns (ptr: nat, ghost i: nat)
      requires Valid() && refcount < NUM_OBJECTS
      modifies this`refcount, this`bitmap
      ensures Valid() && refcount == old(refcount) + 1
      ensures i < NUM_OBJECTS && ptr == ObjectAt(buffer, cacheSize, i) % Tiling.ADDRESS_SPACE
      ensures !old(Taken(i)) && OnlyChange(i, old(bitmap), true)
      ensures forall j | 0 <= j < i :: old(Taken(j))
    {
      var numObject := Size() / cacheSize;
      FiveTimes(cacheSize);
      CountExtremes(bitmap[0], NUM_OBJECTS);
      ptr, i := NULL, 0;
      var k := 0;
      while k < numObject
        invariant 0 <= k <= NUM_OBJECTS && bitmap == old(bitmap) && refcount == old(refcount)
        invariant forall j | 0 <= j < k :: TestBit(bitmap[0], j)
      {
        if !TestBit(bitmap[k / 8], k % 8) {
          ghost var b := bitmap[0];
          bitmap := bitmap[k / 8 := SetBit(bitmap[k / 8], k % 8)];
          forall j | 0 <= j < 8 ensures TestBit(bitmap[0], j) <==> k == j || TestBit(b, j) {
            BitsAreIndependent(b, k, j);
          }
          CountUpdate(b, bitmap[0], NUM_OBJECTS, k);
          ObjectAtOffset(buffer, cacheSize, k);
          ptr := (buffer + cacheSize * k) % Tiling.ADDRESS_SPACE;
          refcount := refcount + 1;
          return ptr, k;
        }
        k := k + 1;
      }
      assert false;
    }

    // Exactly object i changed hands.
    ghost predicate OnlyChange(i: nat, was: seq<bv8>, taken: bool)
      requires i < NUM_OBJECTS && |bitmap| == 1 && |was| == 1
      reads this`bitmap
    {
      && Taken(i) == taken
      && forall j | 0 <= j < NUM_OBJECTS && j != i :: Taken(j) <==> TestBit(was[0], j)
    }

    // The start of slab_free_object.
    method FreeObject(ptr: nat, ghost i: nat)
      requires Valid() && i < NUM_OBJECTS && ptr == ObjectAt(buffer, cacheSize, i) && Taken(i)
      modifies this`refcount, this`bitmap
      ensures Valid() && refcount == old(refcount) - 1
      ensures OnlyChange(i, old(bitmap), false)
    {
      var offset := ptr - buffer;
      var index := offset / cacheSize;
      ObjectAtOffset(buffer, cacheSize, i);
      QuotientOf(i, cacheSize);
      assert index == i;
      ghost var b := bitmap[0];
      CountExtremes(b, NUM_OBJECTS);
      bitmap := bitmap[index / 8 := ClearBit(bitmap[index / 8], index % 8)];
      forall j | 0 <= j < 8 ensures TestBit(bitmap[0], j) <==> i != j && TestBit(b, j) {
        BitsAreIndependent(b, i, j);
      }
      CountUpdate(bitmap[0], b, NUM_OBJECTS, i);
      refcount := refcount - 1;
    }
  }

  lemma FiveTimes(n: nat)
    requires n > 0
    ensures NUM_OBJECTS * n / n == NUM_OBJECTS
  {
    QuotientOf(NUM_OBJECTS, n);
  }

  lemma QuotientOf(i: nat, n: nat)
    requires n > 0
    ensures n * i / n == i
  {
    Quotient(n * i, i, n);
  }

  lemma Quotient(x: nat, i: nat, n: nat)
    requires n > 0 && x == n * i
    ensures x / n == i
  {
    var q := x / n;
    AtLeastOnce(n, i - q);
    AtLeastOnce(n, q - i);
    Distributes(n, i, q);
  }

  lemma Distributes(n: nat, i: int, q: int)
    ensures n * (i - q) == n * i - n * q
    ensures n * (q - i) == n * q - n * i
  {
  }

  lemma AtLeastOnce(n: nat, x: int)
    ensures x >= 1 ==> n * x >= n
  {
    if x >= 1 {
      assert n * x == n * (x - 1) + n;
    }
  }

  // The objects of a slab lie inside it, side by side.
  lemma ObjectInside(slab: nat, size: nat, i: nat)
    requires i < NUM_OBJECTS
    ensures slab <= ObjectAt(slab, size, i) && ObjectAt(slab, size, i) + size <= SlabEnd(slab, size)
  {
    ObjectsInOrder(slab, size, 0, i);
    ObjectsInOrder(slab, size, i + 1, NUM_OBJECTS);
    ObjectAtOffset(slab, size, NUM_OBJECTS);
  }

  lemma {:induction false} ObjectsInOrder(slab: nat, size: nat, i: nat, j: nat)
    requires i <= j
    ensures ObjectAt(slab, size, i) <= ObjectAt(slab, size, j)
    ensures i < j ==> ObjectAt(slab, size, i) + size <= ObjectAt(slab, size, j)
    decreases j
  {
    if i < j {
      ObjectsInOrder(slab, size, i, j - 1);
    }
  }

  predicate Apart(s: nat, t: nat, size: nat) {
    SlabEnd(s, size) <= t || SlabEnd(t, size) <= s
  }

  // ----- the cache as one value -----

  // Slabs are known by the addresses of their descriptors.
  datatype Lists = Lists(empty: seq<nat>, partial: seq<nat>, full: seq<nat>)

  // An object is known by its slab and its place in it; refs holds the reference count of each slab.
  datatype State = State(
    lists: Lists,
    refs: map<nat, nat>,
    outstanding: set<(nat, nat)>, // objects handed out and not freed
    peak: nat)                    // the most that were ever outstanding at once

  function SlabCount(l: Lists): nat {
    |l.empty| + |l.partial| + |l.full|
  }

  // A slab in the partial list may be empty only while it is `but`, which is about to give an object.
  predicate IsEmpty(refs: map<nat, nat>, but: nat, s: nat) {
    s in refs && refs[s] == 0 && s != but
  }

  predicate IsPartial(refs: map<nat, nat>, but: nat, s: nat) {
    s in refs && refs[s] < NUM_OBJECTS && (refs[s] > 0 || s == but)
  }

  predicate IsFull(refs: map<nat, nat>, s: nat) {
    s in refs && refs[s] == NUM_OBJECTS
  }

  // Every slab is, once, in the list that its reference count dictates.
  ghost predicate Classified(l: Lists, refs: map<nat, nat>, but: nat) {
    && NoDup<nat>(l.empty) && NoDup<nat>(l.partial) && NoDup<nat>(l.full)
    && (forall s: nat :: s in l.empty <==> IsEmpty(refs, but, s))
    && (forall s: nat :: s in l.partial <==> IsPartial(refs, but, s))
    && (forall s: nat :: s in l.full <==> IsFull(refs, s))
    && (forall s: nat | s in refs :: 0 < s && refs[s] <= NUM_OBJECTS)
  }

  // The number of outstanding objects among the first n of slab s.
  function Held(outstanding: set<(nat, nat)>, s: nat, n: nat): (h: nat)
    ensures h <= n
  {
    if n == 0 then 0 else Held(outstanding, s, n - 1) + (if (s, n - 1) in outstanding then 1 else 0)
  }

  // Each reference count is the number of its slab's objects that are outstanding, and there are no others.
  ghost predicate Accounted(refs: map<nat, nat>, outstanding: set<(nat, nat)>) {
    && (forall s | s in refs :: refs[s] == Held(outstanding, s, NUM_OBJECTS))
    && (forall o | o in outstanding :: o.0 in refs && o.1 < NUM_OBJECTS)
  }

  // The reference counts of a list, added up.
  function Sum(refs: map<nat, nat>, list: seq<nat>): nat {
    if list == [] then 0 else (if list[0] in refs then refs[list[0]] else 0) + Sum(refs, list[1..])
  }

  function InUse(l: Lists, refs: map<nat, nat>): nat {
    NUM_OBJECTS * |l.full| + Sum(refs, l.partial)
  }

  function CeilDiv(n: nat): nat {
    (n + NUM_OBJECTS - 1) / NUM_OBJECTS
  }

  function Max(a: nat, b: nat): nat {
    if a > b then a else b
  }

  ghost predicate Sound(st: State, but: nat) {
    Classified(st.lists, st.refs, but) && Balanced(st)
  }

  ghost predicate Balanced(st: State) {
    Accounted(st.refs, st.outstanding) && InUse(st.lists, st.refs) == |st.outstanding| <= st.peak
  }

  // Between public calls. The last clause is the whole-run bound: the number of slabs is the peak number
  // of outstanding objects divided by five, rounded up.
  ghost predicate Valid(st: State) {
    Sound(st, NULL) && SlabCount(st.lists) == CeilDiv(st.peak)
  }

  // After slab x has been found and before its object is taken.
  ghost predicate Ready(st: State, x: nat) {
    && Sound(st, x) && x in st.lists.partial
    && SlabCount(st.lists) == CeilDiv(Max(st.peak, |st.outstanding| + 1))
  }

  // ----- the steps -----

  // slab_alloc_object: slab x gives an object
  function TakeLists(l: Lists, x: nat, r: nat): Lists {
    if r + 1 == NUM_OBJECTS then Lists(l.empty, Without<nat>(l.partial, x), l.full + [x]) else l
  }

  function TakeStep(st: State, x: nat, i: nat): State
    requires x in st.refs
  {
    var now := st.outstanding + {(x, i)};
    State(TakeLists(st.lists, x, st.refs[x]), st.refs[x := st.refs[x] + 1], now, Max(st.peak, |now|))
  }

  // slab_free_object: an object comes back to slab x
  function FreeLists(l: Lists, x: nat, r: nat): Lists {
    if r == 1
    then Lists(l.empty + [x], Without<nat>(l.partial, x), Without<nat>(l.full, x))
    else Lists(l.empty, Without<nat>(l.partial, x) + [x], Without<nat>(l.full, x))
  }

  function FreeStep(st: State, x: nat, i: nat): State
    requires x in st.refs && st.refs[x] > 0
  {
    State(FreeLists(st.lists, x, st.refs[x]), st.refs[x := st.refs[x] - 1], st.outstanding - {(x, i)}, st.peak)
  }

  // mcache_move_empty_slab_to_partial_list with an empty slab at hand ...
  function MoveStep(st: State): State
    requires st.lists.empty != []
  {
    var l := st.lists;
    st.(lists := Lists(Without<nat>(l.empty, l.empty[0]), l.partial + [l.empty[0]], l.full))
  }

  // ... and with a new slab.
  function NewStep(st: State, x: nat): State {
    st.(lists := st.lists.(partial := st.lists.partial + [x]), refs := st.refs[x := 0])
  }

  // ----- sums -----

  lemma {:induction false} SumWithout(refs: map<nat, nat>, list: seq<nat>, x: nat)
    requires x in list && x in refs
    ensures Sum(refs, list) == refs[x] + Sum(refs, Without<nat>(list, x))
  {
    if list[0] != x {
      SumWithout(refs, list[1..], x);
      var rest := Without<nat>(list[1..], x);
      assert ([list[0]] + rest)[1..] == rest;
    }
  }

  lemma {:induction false} SumAppend(refs: map<nat, nat>, list: seq<nat>, x: nat)
    requires x in refs
    ensures Sum(refs, list + [x]) == Sum(refs, list) + refs[x]
  {
    if list == [] {
      assert list + [x] == [x] && [x][1..] == [];
    } else {
      SumAppend(refs, list[1..], x);
      assert (list + [x])[1..] == list[1..] + [x];
    }
  }

  lemma {:induction false} SumSame(refs: map<nat, nat>, list: seq<nat>, x: nat, r: nat)
    requires x !in list
    ensures Sum(refs, list) == Sum(refs[x := r], list)
  {
    if list != [] {
      SumSame(refs, list[1..], x, r);
    }
  }

  lemma {:induction false} SumBounded(refs: map<nat, nat>, list: seq<nat>)
    requires forall s | s in list :: s in refs && refs[s] < NUM_OBJECTS
    ensures Sum(refs, list) <= (NUM_OBJECTS - 1) * |list|
  {
    if list != [] {
      assert list[0] in list;
      SumBounded(refs, list[1..]);
    }
  }

  // The list's total when slab x leaves it with a new count, and when it stays.
  lemma SumChange(refs: map<nat, nat>, list: seq<nat>, x: nat, r: nat)
    requires x in refs && x in list && NoDup<nat>(list)
    ensures Sum(refs[x := r], Without<nat>(list, x)) == Sum(refs, list) - refs[x]
    ensures Sum(refs[x := r], list) == Sum(refs, list) - refs[x] + r
  {
    WithoutMembers<nat>(list, x);
    SumWithout(refs, list, x);
    SumWithout(refs[x := r], list, x);
    SumSame(refs, Without<nat>(list, x), x, r);
  }

  // ----- the lists after each step -----

  lemma TakeClassifies(l: Lists, refs: map<nat, nat>, x: nat)
    requires Classified(l, refs, x) && x in l.partial
    ensures x in refs && Classified(TakeLists(l, x, refs[x]), refs[x := refs[x] + 1], NULL)
    ensures NoDup<nat>(l.partial) && SlabCount(TakeLists(l, x, refs[x])) == SlabCount(l)
  {
    WithoutMembers<nat>(l.partial, x);
    NoDupAppend<nat>(l.full, x);
  }

  lemma TakeCounts(l: Lists, refs: map<nat, nat>, x: nat)
    requires x in l.partial && x in refs && NoDup<nat>(l.partial)
    ensures InUse(TakeLists(l, x, refs[x]), refs[x := refs[x] + 1]) == InUse(l, refs) + 1
  {
    SumChange(refs, l.partial, x, refs[x] + 1);
  }

  lemma FreeClassifies(l: Lists, refs: map<nat, nat>, x: nat)
    requires Classified(l, refs, NULL) && x in refs && refs[x] > 0
    ensures Classified(FreeLists(l, x, refs[x]), refs[x := refs[x] - 1], NULL)
    ensures SlabCount(FreeLists(l, x, refs[x])) == SlabCount(l)
    ensures NoDup<nat>(l.partial) && (x in l.partial <==> x !in l.full) && (x in l.full ==> refs[x] == NUM_OBJECTS)
  {
    WithoutMembers<nat>(l.partial, x);
    WithoutMembers<nat>(l.full, x);
    NoDupAppend<nat>(l.empty, x);
    NoDupAppend<nat>(Without<nat>(l.partial, x), x);
  }

  lemma FreeCounts(l: Lists, refs: map<nat, nat>, x: nat)
    requires x in refs && refs[x] > 0 && NoDup<nat>(l.partial)
    requires x in l.partial <==> x !in l.full
    requires x in l.full ==> refs[x] == NUM_OBJECTS
    ensures InUse(FreeLists(l, x, refs[x]), refs[x := refs[x] - 1]) + 1 == InUse(l, refs)
  {
    var rest, refs' := Without<nat>(l.partial, x), refs[x := refs[x] - 1];
    if x in l.partial {
      SumChange(refs, l.partial, x, refs[x] - 1);
    } else {
      SumSame(refs, l.partial, x, refs[x] - 1);
    }
    SumAppend(refs', rest, x);
  }

  // ----- the accounts after each step -----

  lemma {:induction false} HeldSame(out: set<(nat, nat)>, o: (nat, nat), s: nat, n: nat)
    requires s != o.0 || n <= o.1
    ensures Held(out + {o}, s, n) == Held(out, s, n) == Held(out - {o}, s, n)
  {
    if n > 0 {
      HeldSame(out, o, s, n - 1);
    }
  }

  lemma {:induction false} HeldOneMore(out: set<(nat, nat)>, s: nat, i: nat, n: nat)
    requires i < n
    ensures Held(out - {(s, i)}, s, n) + 1 == Held(out + {(s, i)}, s, n)
  {
    if i < n - 1 {
      HeldOneMore(out, s, i, n - 1);
    } else {
      HeldSame(out, (s, i), s, n - 1);
    }
  }

  lemma TakeAccounts(refs: map<nat, nat>, out: set<(nat, nat)>, x: nat, i: nat)
    requires Accounted(refs, out) && x in refs && i < NUM_OBJECTS && (x, i) !in out
    ensures Accounted(refs[x := refs[x] + 1], out + {(x, i)})
  {
    HeldOneMore(out, x, i, NUM_OBJECTS);
    assert out - {(x, i)} == out;
    forall s | s in refs && s != x ensures Held(out + {(x, i)}, s, NUM_OBJECTS) == refs[s] {
      HeldSame(out, (x, i), s, NUM_OBJECTS);
    }
  }

  lemma FreeAccounts(refs: map<nat, nat>, out: set<(nat, nat)>, x: nat, i: nat)
    requires Accounted(refs, out) && (x, i) in out
    ensures x in refs && refs[x] > 0
    ensures Accounted(refs[x := refs[x] - 1], out - {(x, i)})
  {
    assert (x, i).0 in refs && (x, i).1 < NUM_OBJECTS;
    HeldOneMore(out, x, i, NUM_OBJECTS);
    assert out + {(x, i)} == out;
    forall s | s in refs && s != x ensures Held(out - {(x, i)}, s, NUM_OBJECTS) == refs[s] {
      HeldSame(out, (x, i), s, NUM_OBJECTS);
    }
  }

  lemma {:induction false} HoldsNone(out: set<(nat, nat)>, x: nat, n: nat)
    requires forall o | o in out :: o.0 != x
    ensures Held(out, x, n) == 0
  {
    if n > 0 {
      HoldsNone(out, x, n - 1);
    }
  }

  lemma NewAccounts(refs: map<nat, nat>, out: set<(nat, nat)>, x: nat)
    requires Accounted(refs, out) && x !in refs
    ensures Accounted(refs[x := 0], out)
  {
    HoldsNone(out, x, NUM_OBJECTS);
  }

  // ----- how many slabs -----

  lemma RoomMeansNoNewSlab(count: nat, peak: nat, used: nat)
    requires count == CeilDiv(peak) && used < NUM_OBJECTS * count
    ensures count == CeilDiv(Max(peak, used + 1))
  {
  }

  lemma NoRoomMeansNewSlab(count: nat, peak: nat, used: nat)
    requires count == CeilDiv(peak) && used == NUM_OBJECTS * count && used <= peak
    ensures peak == used && count + 1 == CeilDiv(Max(peak, used + 1))
  {
  }

  // ----- every step keeps the invariant -----

  lemma OneMore<T>(out: set<T>, a: T)
    ensures a !in out ==> |out + {a}| == |out| + 1
    ensures a in out ==> |out - {a}| + 1 == |out|
  {
  }

  // An allocation gives an object that nobody holds.
  lemma TakeKeepsValid(st: State, x: nat, i: nat)
    requires Ready(st, x) && i < NUM_OBJECTS && (x, i) !in st.outstanding
    ensures x in st.refs && Valid(TakeStep(st, x, i))
    ensures SlabCount(TakeStep(st, x, i).lists) == SlabCount(st.lists)
  {
    hide Classified, Accounted;
    TakeClassifies(st.lists, st.refs, x);
    TakeBalances(st, x, i);
  }

  lemma TakeBalances(st: State, x: nat, i: nat)
    requires Balanced(st) && x in st.refs && i < NUM_OBJECTS
    requires x in st.lists.partial && NoDup<nat>(st.lists.partial) && (x, i) !in st.outstanding
    ensures Balanced(TakeStep(st, x, i))
    ensures |TakeStep(st, x, i).outstanding| == |st.outstanding| + 1
  {
    hide Accounted, Without, Sum;
    TakeCounts(st.lists, st.refs, x);
    TakeAccounts(st.refs, st.outstanding, x, i);
    OneMore(st.outstanding, (x, i));
  }

  lemma FreeKeepsValid(st: State, x: nat, i: nat)
    requires Valid(st) && (x, i) in st.outstanding
    ensures x in st.refs && st.refs[x] > 0
    ensures Valid(FreeStep(st, x, i))
  {
    hide Classified, Accounted, Sum;
    FreeAccounts(st.refs, st.outstanding, x, i);
    FreeClassifies(st.lists, st.refs, x);
    FreeCounts(st.lists, st.refs, x);
    OneMore(st.outstanding, (x, i));
  }

  // A partial slab is ready: there is room, so the peak does not need another slab.
  lemma PartialIsReady(st: State)
    requires Valid(st) && st.lists.partial != []
    ensures Ready(st, st.lists.partial[0])
  {
    var x := st.lists.partial[0];
    assert x in st.lists.partial;
    forall s | s in st.lists.partial ensures s in st.refs && st.refs[s] < NUM_OBJECTS {
      assert IsPartial(st.refs, NULL, s);
    }
    SumBounded(st.refs, st.lists.partial);
    RoomMeansNoNewSlab(SlabCount(st.lists), st.peak, |st.outstanding|);
    PartialStays(st.lists, st.refs, x);
  }

  lemma PartialStays(l: Lists, refs: map<nat, nat>, x: nat)
    requires Classified(l, refs, NULL) && x in l.partial
    ensures Classified(l, refs, x)
  {
  }

  lemma MoveClassifies(l: Lists, refs: map<nat, nat>)
    requires Classified(l, refs, NULL) && l.partial == [] && l.empty != []
    ensures Classified(Lists(Without<nat>(l.empty, l.empty[0]), l.partial + [l.empty[0]], l.full), refs, l.empty[0])
    ensures l.empty[0] in refs && refs[l.empty[0]] == 0 && l.empty[0] > 0
  {
    var x := l.empty[0];
    assert x in l.empty;
    WithoutMembers<nat>(l.empty, x);
    assert l.partial + [x] == [x];
  }

  lemma MovedIsReady(st: State)
    requires Valid(st) && st.lists.partial == [] && st.lists.empty != []
    ensures Ready(MoveStep(st), st.lists.empty[0]) && st.lists.empty[0] > 0
  {
    MoveClassifies(st.lists, st.refs);
    SumAppend(st.refs, st.lists.partial, st.lists.empty[0]);
    RoomMeansNoNewSlab(SlabCount(st.lists), st.peak, |st.outstanding|);
  }

  lemma InEmpty(l: Lists, refs: map<nat, nat>)
    requires Classified(l, refs, NULL) && l.empty != []
    ensures l.empty[0] in refs
  {
    assert l.empty[0] in l.empty;
  }

  // No slab has an object to give.
  predicate NoSlab(st: State) {
    st.lists.partial == [] && st.lists.empty == []
  }

  lemma ListsAreSlabs(st: State)
    requires Valid(st)
    ensures NULL !in st.lists.partial && NULL !in st.lists.full
    ensures forall s | s in st.lists.partial || s in st.lists.full :: s in st.refs
    ensures NoDup<nat>(st.lists.partial)
  {
  }

  lemma NullIsNoSlab(st: State)
    requires Valid(st)
    ensures NULL !in st.refs
  {
  }

  lemma NewClassifies(l: Lists, refs: map<nat, nat>, x: nat)
    requires Classified(l, refs, NULL) && l.partial == [] && l.empty == [] && x !in refs && x > 0
    ensures Classified(l.(partial := l.partial + [x]), refs[x := 0], x)
  {
    assert l.partial + [x] == [x];
  }

  // A new slab is made only when every slab is full, which is when the peak needs one more.
  lemma NewIsReady(st: State, x: nat)
    requires Valid(st) && st.lists.partial == [] && st.lists.empty == []
    requires x !in st.refs && x > 0
    ensures Ready(NewStep(st, x), x)
  {
    NewClassifies(st.lists, st.refs, x);
    NewAccounts(st.refs, st.outstanding, x);
    SumAppend(st.refs[x := 0], st.lists.partial, x);
    NoRoomMeansNewSlab(SlabCount(st.lists), st.peak, |st.outstanding|);
  }

  lemma InList(l: Lists, refs: map<nat, nat>, x: nat)
    requires Classified(l, refs, NULL) && x in refs
    ensures x in l.partial || x in l.full || x in l.empty
    ensures x in l.empty <==> refs[x] == 0
  {
    assert IsEmpty(refs, NULL, x) || IsPartial(refs, NULL, x) || IsFull(refs, x);
  }

  function Members(s: seq<nat>): set<nat> {
    set x | x in s
  }

  lemma {:induction false} CountMembers(s: seq<nat>)
    requires NoDup<nat>(s)
    ensures |Members(s)| == |s|
  {
    if s != [] {
      CountMembers(s[1..]);
      assert Members(s) == {s[0]} + Members(s[1..]);
    }
  }

  // The lists hold every slab once: over any run, the number of slabs is the peak number of outstanding
  // objects divided by five, rounded up.
  lemma SlabsMatchPeak(st: State)
    requires Valid(st)
    ensures |st.refs| == SlabCount(st.lists) == CeilDiv(st.peak)
    ensures st.peak <= NUM_OBJECTS * |st.refs| < st.peak + NUM_OBJECTS
  {
    EverySlabOnce(st.lists, st.refs);
  }

  lemma EverySlabOnce(l: Lists, refs: map<nat, nat>)
    requires Classified(l, refs, NULL)
    ensures |refs| == SlabCount(l)
  {
    CountMembers(l.empty);
    CountMembers(l.partial);
    CountMembers(l.full);
    var e, p, f := Members(l.empty), Members(l.partial), Members(l.full);
    forall s: nat ensures s in refs.Keys <==> s in e + p + f {
      if s in refs {
        InList(l, refs, s);
      }
    }
    assert refs.Keys == e + p + f;
    assert e !! p && (e + p) !! f;
  }

  // ----- where the slabs lie -----

  // The least order, not below that of a page, whose blocks hold the five objects of a slab.
  predicate PageOrder(size: nat, j: nat) {
    && j >= B.PAGE_ORDER && NUM_OBJECTS * size <= Pow2(j)
    && (j > B.PAGE_ORDER ==> Pow2(j - 1) < NUM_OBJECTS * size)
  }

  // pages is the least number of pages that hold them.
  predicate LeastPages(size: nat, pages: nat) {
    NUM_OBJECTS * size <= PAGE_SIZE * pages && forall p: nat | p < pages :: PAGE_SIZE * p < NUM_OBJECTS * size
  }

  ghost predicate NoSlot(m: B.Mem, j: nat, flags: bv32) {
    forall r, a :: !B.OpenSlot(m, r, a, j, flags)
  }

  // page_alloc has no room for a slab: no aligned range of the order is clear in any region permitted.
  ghost predicate NoRoom(m: B.Mem, size: nat, flags: bv32) {
    forall j: nat :: PageOrder(size, j) ==> NoSlot(m, j, flags)
  }

  // A slab's memory is a page that page_alloc gave out for it, or where page_alloc points when it has none.
  ghost predicate Backed(buffer: nat, m: B.Mem, size: nat) {
    buffer != EXHAUSTED ==>
      buffer in m.pages && buffer in m.used && NUM_OBJECTS * size <= Tiling.Size(m.used[buffer].order)
  }

  ghost predicate AllBacked(buffers: map<nat, nat>, m: B.Mem, size: nat) {
    && (forall s | s in buffers :: Backed(buffers[s], m, size))
    && forall s, t | s in buffers && t in buffers && s != t && buffers[s] != EXHAUSTED :: buffers[s] != buffers[t]
  }

  // Slab s has a page.
  predicate HasPage(buffers: map<nat, nat>, s: nat) {
    s in buffers && buffers[s] != EXHAUSTED
  }

  // The order of the least number of pages is the least order for the slab.
  lemma OrderOfPages(size: nat, pages: nat, k: nat)
    requires LeastPages(size, pages) && B.IsOrder(pages, k)
    ensures PageOrder(size, k + B.PAGE_ORDER)
  {
    ShiftByPage(k);
    MoreOfTheSame(pages, Pow2(k));
    if k > 0 {
      ShiftByPage(k - 1);
      assert Pow2(k - 1) < pages;
    }
  }

  lemma PagesAreLeast(size: nat, pages: nat)
    requires size > 0
    requires pages == NUM_OBJECTS * size / PAGE_SIZE + if NUM_OBJECTS * size % PAGE_SIZE != 0 then 1 else 0
    ensures LeastPages(size, pages) && pages > 0
  {
  }

  lemma OnePageOrder(size: nat, j: nat, k: nat)
    requires PageOrder(size, j) && PageOrder(size, k)
    ensures j == k
  {
    if j < k {
      Pow2Monotone(j, k - 1);
    } else if k < j {
      Pow2Monotone(k, j - 1);
    }
  }

  lemma MoreOfTheSame(a: nat, b: nat)
    requires a <= b
    ensures PAGE_SIZE * a <= PAGE_SIZE * b
  {
  }

  lemma ShiftByPage(k: nat)
    ensures Pow2(k + B.PAGE_ORDER) == PAGE_SIZE * Pow2(k)
  {
    assert Pow2(k + 2) == 4 * Pow2(k);
    assert Pow2(k + 4) == 4 * Pow2(k + 2);
    assert Pow2(k + 6) == 4 * Pow2(k + 4);
    assert Pow2(k + 8) == 4 * Pow2(k + 6);
  }

  // The request of a cache whose slab is at most 2 GB is one that page_alloc can serve.
  lemma OrderInRange(size: nat, k: nat)
    requires NUM_OBJECTS * size <= Pow2(Tiling.MAX_ORDER) && PageOrder(size, k)
    ensures k <= Tiling.MAX_ORDER
  {
    if k > Tiling.MAX_ORDER {
      Pow2Monotone(Tiling.MAX_ORDER, k - 1);
    }
  }

  // Five objects never fill their pages to the last byte.
  lemma {:induction false} PowersAreNotFives(k: nat)
    ensures Pow2(k) % 5 != 0
  {
    if k > 0 {
      PowersAreNotFives(k - 1);
    }
  }

  // Two different pages do not overlap, and a slab ends inside the address space.
  lemma PagesApart(m: B.Mem, a: nat, b: nat, size: nat)
    requires B.Valid(m) && a != EXHAUSTED && b != EXHAUSTED && Backed(a, m, size) && Backed(b, m, size)
    ensures a != b ==> Apart(a, b, size)
    ensures 0 < a && SlabEnd(a, size) < Tiling.ADDRESS_SPACE
  {
    hide B.Valid, Pow2;
    UsedInside(m, a);
    EndsInside(size, m.used[a].order);
    if a != b {
      UsedApart(m, a, b);
    }
  }

  lemma UsedInside(m: B.Mem, a: nat)
    requires B.Valid(m) && a in m.used
    ensures 0 < a && a + Tiling.Size(m.used[a].order) <= Tiling.ADDRESS_SPACE
  {
    hide B.Consistent;
    B.UsedBlock(m, a);
  }

  lemma EndsInside(size: nat, k: nat)
    ensures NUM_OBJECTS * size <= Pow2(k) ==> NUM_OBJECTS * size < Pow2(k)
  {
    PowersAreNotFives(k);
  }

  lemma UsedApart(m: B.Mem, a: nat, b: nat)
    requires B.Valid(m) && a in m.used && b in m.used && a != b
    ensures a + Tiling.Size(m.used[a].order) <= b || b + Tiling.Size(m.used[b].order) <= a
  {
    var all := m.free + m.used;
    assert a in all && b in all && all[a] == m.used[a] && all[b] == m.used[b];
  }

  function Start(buffers: map<nat, nat>, size: nat, o: (nat, nat)): nat
    requires o.0 in buffers
  {
    ObjectAt(buffers[o.0], size, o.1)
  }

  // DISJOINT OBJECTS: two objects of slabs that have pages never overlap, and none wraps around the
  // address space.
  lemma ObjectsApart(buffers: map<nat, nat>, m: B.Mem, size: nat, o: (nat, nat), q: (nat, nat))
    requires B.Valid(m) && AllBacked(buffers, m, size)
    requires HasPage(buffers, o.0) && HasPage(buffers, q.0) && o.1 < NUM_OBJECTS && q.1 < NUM_OBJECTS
    ensures o != q ==> Start(buffers, size, o) + size <= Start(buffers, size, q)
                       || Start(buffers, size, q) + size <= Start(buffers, size, o)
    ensures 0 < Start(buffers, size, o) && Start(buffers, size, o) + size < Tiling.ADDRESS_SPACE
  {
    PagesApart(m, buffers[o.0], buffers[q.0], size);
    ObjectInside(buffers[o.0], size, o.1);
    ObjectInside(buffers[q.0], size, q.1);
    if o.0 == q.0 && o.1 != q.1 {
      InOneSlab(buffers[o.0], size, o.1, q.1);
    }
  }

  lemma InOneSlab(s: nat, size: nat, i: nat, j: nat)
    requires i != j
    ensures ObjectAt(s, size, i) + size <= ObjectAt(s, size, j) || ObjectAt(s, size, j) + size <= ObjectAt(s, size, i)
  {
    if i < j {
      ObjectsInOrder(s, size, i, j);
    } else {
      ObjectsInOrder(s, size, j, i);
    }
  }

  // WHEN page_alloc HAS RUN OUT TWICE, the two slabs lie on top of each other: different objects have the
  // same address.
  lemma ExhaustedSlabsOverlap(buffers: map<nat, nat>, size: nat, s: nat, t: nat, i: nat)
    requires s in buffers && t in buffers && s != t && size > 0
    requires !HasPage(buffers, s) && !HasPage(buffers, t)
    ensures !Apart(buffers[s], buffers[t], size)
    ensures (s, i) != (t, i) && Start(buffers, size, (s, i)) == Start(buffers, size, (t, i))
  {
  }

  // The test of find_buffer_slab_in_list: the end of the slab is computed in 32 bits.
  predicate Inside(buffer: nat, size: nat, ptr: nat) {
    buffer <= ptr < SlabEnd(buffer, size) % Tiling.ADDRESS_SPACE
  }

  // For a slab with a page the test is what it is meant to be ...
  lemma InsideAPage(m: B.Mem, a: nat, size: nat, ptr: nat)
    requires B.Valid(m) && a != EXHAUSTED && Backed(a, m, size)
    ensures Inside(a, size, ptr) <==> a <= ptr < SlabEnd(a, size)
  {
    PagesApart(m, a, a, size);
  }

  // ... and a slab without one is never found, unless its five objects fit in the last 16 bytes: what it
  // hands out never comes back.
  lemma ExhaustedIsNeverFound(size: nat, ptr: nat)
    requires 0 < size && NUM_OBJECTS * size < Tiling.ADDRESS_SPACE
    ensures Inside(EXHAUSTED, size, ptr) <==> size < 4 && EXHAUSTED <= ptr < SlabEnd(EXHAUSTED, size)
  {
    if size >= 4 {
      assert SlabEnd(EXHAUSTED, size) % Tiling.ADDRESS_SPACE == SlabEnd(EXHAUSTED, size) - Tiling.ADDRESS_SPACE;
    }
  }

  // A slab that has a page shares no address with any other slab that could be found.
  lemma FoundInOneSlab(buffers: map<nat, nat>, m: B.Mem, size: nat, s: nat, t: nat, ptr: nat)
    requires B.Valid(m) && AllBacked(buffers, m, size) && size > 0
    requires HasPage(buffers, s) && t in buffers && s != t
    requires NUM_OBJECTS * size <= Pow2(Tiling.MAX_ORDER)
    ensures !(Inside(buffers[s], size, ptr) && Inside(buffers[t], size, ptr))
  {
    InsideAPage(m, buffers[s], size, ptr);
    if HasPage(buffers, t) {
      InsideAPage(m, buffers[t], size, ptr);
      PagesApart(m, buffers[s], buffers[t], size);
    } else {
      Pow2Values();
      ExhaustedIsNeverFound(size, ptr);
      BelowTheTop(m, buffers[s]);
    }
  }

  lemma BelowTheTop(m: B.Mem, a: nat)
    requires B.Valid(m) && a in m.pages && a in m.used
    ensures a + PAGE_SIZE <= Tiling.ADDRESS_SPACE
  {
    B.UsedBlock(m, a);
    Pow2Values();
    Pow2Monotone(8, m.used[a].order);
  }

  // The slab of an outstanding object is in one of the two lists that are searched, and if it has a page it
  // is the only slab around the object.
  lemma OwnSlabIsFound(st: State, buffers: map<nat, nat>, m: B.Mem, size: nat, o: (nat, nat))
    requires Valid(st) && B.Valid(m) && AllBacked(buffers, m, size)
    requires size > 0 && NUM_OBJECTS * size <= Pow2(Tiling.MAX_ORDER)
    requires buffers.Keys == st.refs.Keys && o in st.outstanding && HasPage(buffers, o.0)
    ensures o.0 in st.refs && o.1 < NUM_OBJECTS && (o.0 in st.lists.partial || o.0 in st.lists.full)
    ensures forall s | s in buffers :: Inside(buffers[s], size, Start(buffers, size, o)) <==> s == o.0
  {
    var x, i := o.0, o.1;
    FreeAccounts(st.refs, st.outstanding, x, i);
    InList(st.lists, st.refs, x);
    ObjectInside(buffers[x], size, i);
    var ptr := Start(buffers, size, o);
    InsideAPage(m, buffers[x], size, ptr);
    forall s | s in buffers
      ensures Inside(buffers[s], size, ptr) <==> s == x
    {
      if s != x {
        FoundInOneSlab(buffers, m, size, x, s, ptr);
      }
    }
  }

  lemma RoomDecides(m: B.Mem, size: nat, flags: bv32, k: nat, got: bool)
    requires PageOrder(size, k)
    requires got <==> !NoSlot(m, k, flags)
    ensures got <==> !NoRoom(m, size, flags)
  {
    forall j: nat | PageOrder(size, j) ensures j == k {
      OnePageOrder(size, j, k);
    }
  }

  lemma PageIsBacked(m: B.Mem, size: nat, k: nat, page: nat)
    requires B.Valid(m) && PageOrder(size, k)
    requires page == EXHAUSTED || page in m.pages
    requires page in m.pages ==> page in m.used && m.used[page].order == k
    ensures page > 0 && Backed(page, m, size)
  {
    if page in m.pages {
      B.UsedBlock(m, page);
    }
  }

  // No block can be had for a slab's descriptor.
  ghost predicate NoDescriptor(m: B.Mem) {
    forall k, r, a :: B.IsOrder(DESCRIPTOR_SIZE + B.HEADER_SIZE, k) ==> !B.OpenSlot(m, r, a, k, 0)
  }

  // The descriptor x is all that was handed out.
  ghost predicate DescriptorTaken(m: B.Mem, m': B.Mem, x: nat) {
    && x > B.HEADER_SIZE && m'.regions == m.regions && x - B.HEADER_SIZE in m'.used
    && m'.used == m.used[x - B.HEADER_SIZE := m'.used[x - B.HEADER_SIZE]]
    && B.IsOrder(DESCRIPTOR_SIZE + B.HEADER_SIZE, m'.used[x - B.HEADER_SIZE].order)
  }

  // Nothing handed out has come back.
  ghost predicate Grown(m: B.Mem, m': B.Mem) {
    m.pages <= m'.pages && forall a | a in m.used :: a in m'.used && m'.used[a] == m.used[a]
  }

  lemma BackedLater(m: B.Mem, m': B.Mem, buffer: nat, size: nat)
    requires Backed(buffer, m, size) && Grown(m, m')
    ensures Backed(buffer, m', size)
  {
  }

  lemma StaysBacked(buffers: map<nat, nat>, m: B.Mem, m': B.Mem, size: nat)
    requires AllBacked(buffers, m, size) && Grown(m, m')
    ensures AllBacked(buffers, m', size)
  {
    forall s | s in buffers ensures Backed(buffers[s], m', size) {
      BackedLater(m, m', buffers[s], size);
    }
  }

  // The slabs have their pages and their descriptors.
  ghost predicate PlacedIn(buffers: map<nat, nat>, m: B.Mem, size: nat) {
    && B.Valid(m) && AllBacked(buffers, m, size)
    && forall s | s in buffers :: s > B.HEADER_SIZE && s - B.HEADER_SIZE in m.used
  }

  lemma StaysPlaced(buffers: map<nat, nat>, m: B.Mem, m': B.Mem, size: nat)
    requires PlacedIn(buffers, m, size) && Grown(m, m') && B.Valid(m')
    ensures PlacedIn(buffers, m', size)
  {
    StaysBacked(buffers, m, m', size);
  }

  // A new slab on a page that was not in use, or on none, leaves the others where they are.
  lemma NewIsPlaced(buffers: map<nat, nat>, m: B.Mem, m': B.Mem, size: nat, x: nat, page: nat)
    requires PlacedIn(buffers, m, size) && Grown(m, m') && B.Valid(m') && Backed(page, m', size)
    requires page != EXHAUSTED ==> page !in m.used
    requires x > B.HEADER_SIZE && x - B.HEADER_SIZE in m'.used && x - B.HEADER_SIZE !in m.used
    ensures x !in buffers && PlacedIn(buffers[x := page], m', size)
  {
    hide B.Valid;
    StaysPlaced(buffers, m, m', size);
    forall s | s in buffers ensures page != EXHAUSTED ==> buffers[s] != page {
      assert Backed(buffers[s], m, size);
    }
  }

  // struct mcache
  class Cache {
    const size: nat
    const flags: bv32
    const mm: B.Mm
    var empty: seq<nat>
    var partial: seq<nat>
    var full: seq<nat>
    var slabs: map<nat, Slab> // at the addresses of their descriptors
    ghost var refs: map<nat, nat>
    ghost var outstanding: set<(nat, nat)>
    ghost var peak: nat

    ghost function View(): State
      reads this
    {
      State(Lists(empty, partial, full), refs, outstanding, peak)
    }

    // Where each slab's objects are.
    ghost function Buffers(): (b: map<nat, nat>)
      reads this`slabs
    {
      map s | s in slabs :: slabs[s].buffer
    }

    ghost predicate Mirror(s: nat)
      requires s in slabs
      reads this`slabs, this`refs, this`outstanding, {slabs[s]}`refcount, {slabs[s]}`bitmap
    {
      var slab := slabs[s];
      && slab.Valid() && slab.descriptor == s && slab.cacheSize == size
      && s in refs && slab.refcount == refs[s]
      && forall i: nat | i < NUM_OBJECTS :: slab.Taken(i) <==> (s, i) in outstanding
    }

    // The slabs hold the abstract state: each bitmap has the bits of its outstanding objects.
    ghost predicate Mirrors()
      reads this`slabs, this`refs, this`outstanding, slabs.Values`refcount, slabs.Values`bitmap
    {
      && refs.Keys == slabs.Keys
      && forall s | s in slabs :: Mirror(s)
    }

    // The allocator below has given this cache all its pages and descriptors.
    ghost predicate Placed()
      reads this`slabs, mm
    {
      PlacedIn(Buffers(), mm.View(), size)
    }

    ghost predicate Servable() {
      0 < size && NUM_OBJECTS * size <= Pow2(Tiling.MAX_ORDER)
    }

    ghost predicate Invariant()
      reads this, mm, slabs.Values`refcount, slabs.Values`bitmap
    {
      Servable() && Mirrors() && Valid(View()) && Placed()
    }

    // mcache_create
    constructor (mm: B.Mm, size: nat, align: nat, flags: bv32)
      requires B.Valid(mm.View())
      requires 0 < Max(size, align) && NUM_OBJECTS * Max(size, align) <= Pow2(Tiling.MAX_ORDER)
      ensures Invariant() && this.mm == mm && this.size == Max(size, align) && this.flags == flags
      ensures View() == State(Lists([], [], []), map[], {}, 0)
    {
      this.mm, this.flags := mm, flags;
      this.size := if size > align then size else align;
      empty, partial, full := [], [], [];
      slabs, refs := map[], map[];
      outstanding, peak := {}, 0;
    }

    // The pages of a new slab: they are missing exactly if the allocator had no room for them.
    method GetPage() returns (page: nat)
      requires Servable() && B.Valid(mm.View())
      modifies mm
      ensures B.Valid(mm.View()) && 0 < page && Backed(page, mm.View(), size)
      ensures page == EXHAUSTED <==> NoRoom(old(mm.View()), size, flags)
      ensures page == EXHAUSTED ==> mm.View() == old(mm.View())
      ensures page != EXHAUSTED ==> page in mm.used && page !in old(mm.used) && mm.pages == old(mm.pages) + {page}
      ensures page != EXHAUSTED ==> mm.used == old(mm.used)[page := mm.used[page]] && PageOrder(size, mm.used[page].order)
      ensures Grown(old(mm.View()), mm.View())
    {
      hide B.Consistent, B.Valid, B.IsOrder, NoRoom, Backed, PageOrder, LeastPages;
      ghost var before := mm.View();
      var bufferSize := NUM_OBJECTS * size;
      var pages := bufferSize / PAGE_SIZE;
      if bufferSize % PAGE_SIZE != 0 {
        pages := pages + 1;
      }
      PagesAreLeast(size, pages);
      var order := B.SizeToOrder(pages);
      OrderOfPages(size, pages, order);
      ghost var j: nat := order + B.PAGE_ORDER;
      OrderInRange(size, j);
      page := mm.PageAlloc(flags, order);
      PageIsBacked(mm.View(), size, j, page);
      RoomDecides(before, size, flags, j, page != EXHAUSTED);
    }

    // kzalloc of a descriptor
    method GetDescriptor(ghost page: nat) returns (x: nat)
      requires B.Valid(mm.View()) && Backed(page, mm.View(), size)
      modifies mm
      ensures B.Valid(mm.View()) && Backed(page, mm.View(), size) && Grown(old(mm.View()), mm.View())
      ensures x == NULL ==> NoDescriptor(mm.View()) && mm.View() == old(mm.View())
      ensures x != NULL ==> x > B.HEADER_SIZE && x - B.HEADER_SIZE in mm.used && x - B.HEADER_SIZE !in old(mm.used)
      ensures x != NULL ==> DescriptorTaken(old(mm.View()), mm.View(), x)
    {
      hide B.Consistent, B.Valid, B.IsOrder;
      x := mm.Kmalloc(DESCRIPTOR_SIZE, 0);
    }

    // The memory of a new slab: page_alloc's result is compared with NULL, which it never is, so the
    // descriptor is asked for even when there is no page.
    method GetMemory(ghost buffers: map<nat, nat>) returns (page: nat, x: nat)
      requires Servable() && PlacedIn(buffers, mm.View(), size)
      modifies mm
      ensures PlacedIn(if x == NULL then buffers else buffers[x := page], mm.View(), size)
      ensures x == NULL ==> NoDescriptor(mm.View())
      ensures x != NULL ==> x !in buffers
      ensures page == EXHAUSTED <==> NoRoom(old(mm.View()), size, flags)
      ensures page != EXHAUSTED ==> page !in old(mm.used)
      ensures x == NULL && page == EXHAUSTED ==> mm.View() == old(mm.View())
      ensures x != NULL && page == EXHAUSTED ==> DescriptorTaken(old(mm.View()), mm.View(), x)
    {
      hide DescriptorTaken, Backed, NoRoom, NoDescriptor, AllBacked, B.Valid;
      ghost var before := mm.View();
      page := GetPage();
      if page == NULL {
        assert false; // page_alloc never returns NULL
      }
      x := GetDescriptor(page);
      if x == NULL {
        StaysPlaced(buffers, before, mm.View(), size);
      } else {
        NewIsPlaced(buffers, before, mm.View(), size, x, page);
      }
    }

    // mcache_allocate_new_slab: a slab is made even when there is no page for it. NULL is the answer when
    // there is no room for the descriptor; the page then stays allocated.
    method AllocateNewSlab() returns (x: nat)
      requires Servable() && Mirrors() && Placed() && Accounted(refs, outstanding)
      modifies mm, this`slabs, this`refs
      ensures Mirrors() && Placed()
      ensures x == NULL ==> slabs == old(slabs) && refs == old(refs) && NoDescriptor(mm.View())
      ensures x == NULL && NoRoom(old(mm.View()), size, flags) ==> mm.View() == old(mm.View())
      ensures x != NULL ==> x !in old(refs) && refs == old(refs)[x := 0] && NewSlab(x, old(slabs), old(mm.View()))
      ensures OthersStay(old(slabs))
    {
      hide DescriptorTaken, PlacedIn, Cache.Mirrors, NoRoom, NoDescriptor, Accounted;
      KnownSlabs();
      var page: nat;
      page, x := GetMemory(Buffers());
      if x != NULL {
        AddSlab(x, page);
      }
    }

    lemma KnownSlabs()
      requires Mirrors()
      ensures refs.Keys == slabs.Keys
    {
    }

    // The new slab's fields.
    method AddSlab(x: nat, page: nat)
      requires size > 0 && Mirrors() && x !in slabs && Accounted(refs, outstanding)
      modifies this`slabs, this`refs
      ensures Mirrors() && refs == old(refs)[x := 0]
      ensures slabs == old(slabs)[x := slabs[x]] && fresh(slabs[x]) && slabs[x].buffer == page
      ensures Buffers() == old(Buffers())[x := page]
    {
      hide Count, TestBit, Held;
      var slab := new Slab(x, size, page);
      slabs := slabs[x := slab];
      refs := refs[x := 0];
      forall s | s in slabs ensures Mirror(s) {
        assert s != x ==> old(Mirror(s));
      }
    }

    // Slabs are only ever added.
    twostate predicate OthersStay(was: map<nat, Slab>)
      reads this`slabs
    {
      && was.Keys <= slabs.Keys
      && forall s | s in slabs :: if s in was then slabs[s] == was[s] else fresh(slabs[s])
    }

    // The branch in which no slab is empty.
    method MoveNew() returns (x: nat)
      requires Invariant() && partial == [] && empty == []
      modifies mm, this`slabs, this`refs, this`partial
      ensures Mirrors() && Placed()
      ensures x == NULL ==> slabs == old(slabs) && View() == old(View()) && NoDescriptor(mm.View())
      ensures x == NULL && NoRoom(old(mm.View()), size, flags) ==> mm.View() == old(mm.View())
      ensures x != NULL ==> Ready(View(), x) && View() == NewStep(old(View()), x)
      ensures x != NULL ==> NewSlab(x, old(slabs), old(mm.View()))
      ensures OthersStay(old(slabs))
    {
      hide Cache.Mirrors, Cache.NewSlab, Cache.OthersStay, Classified, InUse, Accounted, DescriptorTaken, NoRoom, NoDescriptor, PlacedIn;
      ghost var was := View();
      x := AllocateNewSlab();
      if x == NULL {
        return;
      }
      NewIsReady(was, x);
      partial := partial + [x];
    }

    // mcache_move_empty_slab_to_partial_list
    method MoveEmptySlabToPartialList() returns (x: nat)
      requires Invariant() && partial == []
      modifies mm, this`slabs, this`refs, this`empty, this`partial
      ensures Mirrors() && Placed() && (x == NULL <==> x !in slabs)
      ensures x == NULL ==> old(empty) == [] && View() == old(View()) && NoDescriptor(mm.View())
      ensures x == NULL && NoRoom(old(mm.View()), size, flags) ==> mm.View() == old(mm.View())
      ensures x == NULL || old(empty) != [] ==> slabs == old(slabs)
      ensures old(empty) != [] ==> x == old(empty[0]) && mm.View() == old(mm.View())
      ensures x != NULL ==> Ready(View(), x)
      ensures x != NULL ==> View() == if old(empty) != [] then MoveStep(old(View())) else NewStep(old(View()), x)
      ensures x != NULL && old(empty) == [] ==> NewSlab(x, old(slabs), old(mm.View()))
      ensures OthersStay(old(slabs))
    {
      hide Classified, InUse, Accounted, DescriptorTaken, NoRoom, NoDescriptor, PlacedIn, Ready;
      ghost var was := View();
      if empty == [] {
        NullIsNoSlab(was);
        x := MoveNew();
        return;
      }
      x := empty[0];
      MovedIsReady(was);
      InEmpty(was.lists, was.refs);
      empty := Without<nat>(empty, x);
      partial := partial + [x];
    }

    // x is a new slab, without a page exactly if there was none to be had.
    ghost predicate NewSlab(x: nat, was: map<nat, Slab>, m: B.Mem)
      reads this`slabs, mm
    {
      && x !in was && x in slabs && slabs.Keys == was.Keys + {x}
      && (slabs[x].buffer == EXHAUSTED <==> NoRoom(m, size, flags))
      && (slabs[x].buffer != EXHAUSTED ==> slabs[x].buffer !in m.used)
      && (slabs[x].buffer == EXHAUSTED ==> DescriptorTaken(m, mm.View(), x))
    }

    // The loop of slab_alloc_object.
    method GiveObject(x: nat) returns (ptr: nat, ghost i: nat)
      requires Mirrors() && x in slabs && slabs[x].refcount < NUM_OBJECTS
      modifies this`refs, this`outstanding, this`peak, {slabs[x]}`refcount, {slabs[x]}`bitmap
      ensures Mirrors() && x in old(refs)
      ensures i < NUM_OBJECTS && (x, i) !in old(outstanding)
      ensures ptr == ObjectAt(slabs[x].buffer, size, i) % Tiling.ADDRESS_SPACE
      ensures refs == old(refs)[x := old(refs)[x] + 1] && outstanding == old(outstanding) + {(x, i)}
      ensures peak == Max(old(peak), |outstanding|)
      ensures slabs[x].refcount == refs[x]
    {
      hide Count, TestBit;
      assert Mirror(x);
      var slab := slabs[x];
      ptr, i := slab.AllocObject();
      refs := refs[x := refs[x] + 1];
      outstanding := outstanding + {(x, i)};
      peak := Max(peak, |outstanding|);
      forall s | s in slabs ensures Mirror(s) {
        assert old(Mirror(s));
      }
    }

    // slab_alloc_object
    method SlabAllocObject(x: nat) returns (ptr: nat, ghost i: nat)
      requires Mirrors() && x in slabs && slabs[x].refcount < NUM_OBJECTS
      modifies this`refs, this`outstanding, this`peak, this`partial, this`full, {slabs[x]}`refcount, {slabs[x]}`bitmap
      ensures Mirrors() && x in old(refs)
      ensures i < NUM_OBJECTS && (x, i) !in old(outstanding)
      ensures ptr == ObjectAt(slabs[x].buffer, size, i) % Tiling.ADDRESS_SPACE
      ensures View() == TakeStep(old(View()), x, i)
      ensures empty == old(empty)
      ensures if slabs[x].refcount == NUM_OBJECTS then partial == Without<nat>(old(partial), x) && full == old(full) + [x]
              else partial == old(partial) && full == old(full)
    {
      hide Cache.Mirrors;
      ptr, i := GiveObject(x);
      if slabs[x].refcount == NUM_OBJECTS {
        partial := Without<nat>(partial, x);
        full := full + [x];
      }
    }

    // The first half of mcache_alloc.
    method ChooseSlab() returns (x: nat)
      requires Invariant()
      modifies mm, this`slabs, this`refs, this`empty, this`partial
      ensures Mirrors() && Placed() && (x == NULL <==> x !in slabs)
      ensures x == NULL ==> NoSlab(old(View())) && View() == old(View()) && NoDescriptor(mm.View())
      ensures x == NULL && NoRoom(old(mm.View()), size, flags) ==> mm.View() == old(mm.View())
      ensures x == NULL || !NoSlab(old(View())) ==> slabs == old(slabs)
      ensures !NoSlab(old(View())) ==> x != NULL && mm.View() == old(mm.View())
      ensures old(partial != []) ==> x == old(partial)[0]
      ensures old(partial == [] && empty != []) ==> x == old(empty)[0]
      ensures x != NULL ==> Ready(View(), x) && slabs[x].refcount < NUM_OBJECTS
      ensures x != NULL ==> outstanding == old(outstanding) && peak == old(peak)
      ensures x != NULL && NoSlab(old(View())) ==> NewSlab(x, old(slabs), old(mm.View()))
      ensures OthersStay(old(slabs))
    {
      hide InUse, Accounted, DescriptorTaken, NoRoom, NoDescriptor, PlacedIn;
      NullIsNoSlab(View());
      if partial == [] {
        x := MoveEmptySlabToPartialList();
        if x == NULL {
          return;
        }
      } else {
        x := partial[0];
        PartialIsReady(View());
      }
      assert IsPartial(refs, x, x) && Mirror(x);
    }

    // mcache_alloc: o is the object given, if any.
    method Alloc() returns (ptr: nat, ghost o: (nat, nat))
      requires Invariant()
      modifies this, mm, slabs.Values`refcount, slabs.Values`bitmap
      ensures Invariant()
      ensures o.0 == NULL ==> ptr == NULL && View() == old(View()) && NoSlab(View()) && NoDescriptor(mm.View())
      ensures o.0 == NULL && NoRoom(old(mm.View()), size, flags) ==> mm.View() == old(mm.View())
      ensures o.0 != NULL ==> o.0 in slabs && o.1 < NUM_OBJECTS && o !in old(outstanding)
      ensures o.0 != NULL ==> ptr == Start(Buffers(), size, o) % Tiling.ADDRESS_SPACE
      ensures o.0 != NULL ==> outstanding == old(outstanding) + {o} && peak == Max(old(peak), |outstanding|)
      ensures HasPage(Buffers(), o.0) ==> 0 < ptr == Start(Buffers(), size, o) && NoOverlap(o, old(outstanding))
      ensures !NoSlab(old(View())) ==> o.0 != NULL && slabs == old(slabs) && mm.View() == old(mm.View())
      ensures old(partial != []) ==> o.0 == old(partial)[0]
      ensures old(partial == [] && empty != []) ==> o.0 == old(empty)[0]
      ensures o.0 != NULL && NoSlab(old(View())) ==> NewSlab(o.0, old(slabs), old(mm.View()))
      ensures o.0 == NULL ==> slabs == old(slabs)
      ensures OthersStay(old(slabs))
    {
      hide Cache.Mirrors, Classified, Accounted, Valid, Ready, DescriptorTaken, PlacedIn, NoRoom, NoDescriptor;
      ptr, o := NULL, (NULL, 0);
      var x := ChooseSlab();
      if x != NULL {
        ptr, o := TakeFrom(x);
      }
    }

    // The second half of mcache_alloc.
    method TakeFrom(x: nat) returns (ptr: nat, ghost o: (nat, nat))
      requires Servable() && Mirrors() && Placed() && Ready(View(), x) && x in slabs && slabs[x].refcount < NUM_OBJECTS
      modifies this`refs, this`outstanding, this`peak, this`partial, this`full, {slabs[x]}`refcount, {slabs[x]}`bitmap
      ensures Invariant()
      ensures o.0 == x && o.1 < NUM_OBJECTS && o !in old(outstanding)
      ensures ptr == Start(Buffers(), size, o) % Tiling.ADDRESS_SPACE
      ensures outstanding == old(outstanding) + {o} && peak == Max(old(peak), |outstanding|)
      ensures HasPage(Buffers(), x) ==> 0 < ptr == Start(Buffers(), size, o) && NoOverlap(o, old(outstanding))
    {
      hide Cache.Mirrors, Classified, Accounted, InUse, PlacedIn, TakeLists, Start;
      ghost var i: nat;
      ghost var was := View();
      ptr, i := SlabAllocObject(x);
      o := (x, i);
      TakeKeepsValid(was, x, i);
      StartOfObject(o);
      if HasPage(Buffers(), x) {
        NewIsApart(o, was.refs, was.outstanding);
      }
    }

    lemma StartOfObject(o: (nat, nat))
      requires o.0 in slabs
      ensures Start(Buffers(), size, o) == ObjectAt(slabs[o.0].buffer, size, o.1)
    {
    }

    // Object o shares no byte with an object of `others` whose slab has a page.
    ghost predicate NoOverlap(o: (nat, nat), others: set<(nat, nat)>)
      requires o.0 in slabs
      reads this`slabs
    {
      forall q | q in others && HasPage(Buffers(), q.0) ::
        || Start(Buffers(), size, o) + size <= Start(Buffers(), size, q)
        || Start(Buffers(), size, q) + size <= Start(Buffers(), size, o)
    }

    lemma NewIsApart(o: (nat, nat), refs: map<nat, nat>, others: set<(nat, nat)>)
      requires Placed() && HasPage(Buffers(), o.0) && o.1 < NUM_OBJECTS && o !in others
      requires Accounted(refs, others)
      ensures 0 < Start(Buffers(), size, o) < Tiling.ADDRESS_SPACE && NoOverlap(o, others)
    {
      ObjectsApart(Buffers(), mm.View(), size, o, o);
      forall q | q in others && HasPage(Buffers(), q.0)
        ensures Start(Buffers(), size, o) + size <= Start(Buffers(), size, q)
                || Start(Buffers(), size, q) + size <= Start(Buffers(), size, o)
      {
        ObjectsApart(Buffers(), mm.View(), size, o, q);
      }
    }

    // find_buffer_slab_in_list
    method FindBufferSlabInList(ptr: nat, list: seq<nat>) returns (x: nat)
      requires Mirrors() && forall s | s in list :: s in slabs
      requires NULL !in list
      ensures x != NULL ==> x in list && Inside(slabs[x].buffer, size, ptr)
      ensures x == NULL ==> forall s | s in list :: !Inside(slabs[s].buffer, size, ptr)
    {
      var i := 0;
      while i < |list|
        invariant 0 <= i <= |list|
        invariant forall j | 0 <= j < i :: !Inside(slabs[list[j]].buffer, size, ptr)
      {
        assert list[i] in list && Mirror(list[i]);
        var slab := slabs[list[i]];
        if slab.Contains(ptr) {
          return list[i];
        }
        i := i + 1;
      }
      return NULL;
    }

    // find_buffer_slab
    method FindBufferSlab(ptr: nat) returns (x: nat)
      requires Invariant()
      ensures x != NULL ==> x in slabs && (x in partial || x in full) && Inside(slabs[x].buffer, size, ptr)
      ensures x == NULL ==> FoundNowhere(ptr)
    {
      hide InUse, Accounted, PlacedIn;
      ListsAreSlabs(View());
      x := FindBufferSlabInList(ptr, partial);
      if x == NULL {
        x := FindBufferSlabInList(ptr, full);
      }
    }

    // No slab that is searched seems to contain the pointer.
    ghost predicate FoundNowhere(ptr: nat)
      reads this`slabs, this`partial, this`full
    {
      forall s | s in slabs && (s in partial || s in full) :: !Inside(slabs[s].buffer, size, ptr)
    }

    // The start of slab_free_object.
    method TakeBack(x: nat, ptr: nat, ghost i: nat)
      requires Mirrors() && x in slabs && i < NUM_OBJECTS && slabs[x].refcount > 0
      requires ptr == ObjectAt(slabs[x].buffer, size, i) && (x, i) in outstanding
      modifies this`refs, this`outstanding, {slabs[x]}`refcount, {slabs[x]}`bitmap
      ensures Mirrors() && x in old(refs) && old(refs)[x] > 0
      ensures refs == old(refs)[x := old(refs)[x] - 1] && outstanding == old(outstanding) - {(x, i)}
      ensures slabs[x].refcount == refs[x]
    {
      assert Mirror(x);
      var slab := slabs[x];
      slab.FreeObject(ptr, i);
      refs := refs[x := refs[x] - 1];
      outstanding := outstanding - {(x, i)};
      forall s | s in slabs ensures Mirror(s) {
        assert old(Mirror(s));
      }
    }

    // slab_free_object
    method SlabFreeObject(x: nat, ptr: nat, ghost i: nat)
      requires Mirrors() && x in slabs && i < NUM_OBJECTS
      requires NoDup<nat>(partial) && slabs[x].refcount > 0
      requires ptr == ObjectAt(slabs[x].buffer, size, i) && (x, i) in outstanding
      modifies this`refs, this`outstanding, this`empty, this`partial, this`full, {slabs[x]}`refcount, {slabs[x]}`bitmap
      ensures Mirrors() && x in old(refs) && old(refs)[x] > 0
      ensures View() == FreeStep(old(View()), x, i)
      ensures full == Without<nat>(old(full), x)
      ensures if slabs[x].refcount > 0 then partial == Without<nat>(old(partial), x) + [x] && empty == old(empty)
              else partial == Without<nat>(old(partial), x) && empty == old(empty) + [x]
    {
      hide Cache.Mirrors, NoDup, Without;
      TakeBack(x, ptr, i);
      DelThenAdd(partial, x);
      partial, full := Without<nat>(partial, x) + [x], Without<nat>(full, x);
      if slabs[x].refcount == 0 {
        partial := Without<nat>(partial, x);
        empty := empty + [x];
      }
    }

    // mcache_free: a pointer that is found in no slab in use is ignored; an outstanding object o whose slab
    // has a page goes back to that slab.
    method Free(ptr: nat, ghost o: (nat, nat))
      requires Invariant()
      requires Holds(o, ptr) || FoundNowhere(ptr)
      modifies this`refs, this`outstanding, this`empty, this`partial, this`full, slabs.Values`refcount, slabs.Values`bitmap
      ensures Invariant()
      ensures old(Holds(o, ptr)) ==> outstanding == old(outstanding) - {o}
      ensures !old(Holds(o, ptr)) ==> View() == old(View())
    {
      hide Cache.Mirrors, Valid, PlacedIn, Start;
      if Holds(o, ptr) {
        OwnIsFound(o, ptr);
      }
      if ptr == NULL {
        return;
      }
      var x := FindBufferSlab(ptr);
      if x == NULL {
        return;
      }
      StartOfObject(o);
      ReturnObject(x, ptr, o.1);
    }

    // ptr is the address of the outstanding object o in a page.
    ghost predicate Holds(o: (nat, nat), ptr: nat)
      reads this`slabs, this`outstanding
    {
      o in outstanding && HasPage(Buffers(), o.0) && ptr == Start(Buffers(), size, o)
    }

    lemma OwnIsFound(o: (nat, nat), ptr: nat)
      requires Invariant() && Holds(o, ptr)
      ensures ptr > 0 && o.0 in slabs && o.1 < NUM_OBJECTS && !FoundNowhere(ptr)
      ensures forall s | s in slabs :: Inside(slabs[s].buffer, size, ptr) ==> s == o.0
    {
      OwnSlabIsFound(View(), Buffers(), mm.View(), size, o);
      assert Inside(Buffers()[o.0], size, ptr);
      ObjectsApart(Buffers(), mm.View(), size, o, o);
      forall s | s in slabs && Inside(slabs[s].buffer, size, ptr) ensures s == o.0 {
        assert s in Buffers();
      }
    }

    method ReturnObject(x: nat, ptr: nat, ghost i: nat)
      requires Invariant() && x in slabs && i < NUM_OBJECTS
      requires ptr == ObjectAt(slabs[x].buffer, size, i) && (x, i) in outstanding
      modifies this`refs, this`outstanding, this`empty, this`partial, this`full, slabs.Values`refcount, slabs.Values`bitmap
      ensures Invariant() && outstanding == old(outstanding) - {(x, i)}
    {
      hide Classified, InUse, Accounted, PlacedIn;
      ghost var was := View();
      FreeKeepsValid(was, x, i);
      ListsAreSlabs(was);
      assert Mirror(x);
      SlabFreeObject(x, ptr, i);
    }
  }

  // Removing a node that was just appended.
  lemma {:induction false} DelThenAdd(s: seq<nat>, x: nat)
    requires NoDup<nat>(s)
    ensures Without<nat>(Without<nat>(s, x) + [x], x) == Without<nat>(s, x)
  {
    WithoutMembers<nat>(s, x);
    var r := Without<nat>(s, x);
    NoDupAppend<nat>(r, x);
    assert (r + [x])[|r|] == x;
    WithoutAt<nat>(r + [x], |r|);
  }

  // ----- a cache that runs out of pages -----

  // All slabs are full exactly when there are five objects for each of them.
  lemma FullWhenFive(st: State)
    requires Valid(st)
    ensures NoSlab(st) <==> |st.outstanding| == NUM_OBJECTS * CeilDiv(st.peak)
  {
    forall s | s in st.lists.partial ensures s in st.refs && st.refs[s] < NUM_OBJECTS {
      assert IsPartial(st.refs, NULL, s);
    }
    SumBounded(st.refs, st.lists.partial);
  }

  lemma {:induction false} AllHeld(outstanding: set<(nat, nat)>, s: nat, n: nat, i: nat)
    requires Held(outstanding, s, n) == n && i < n
    ensures (s, i) in outstanding
  {
    if i < n - 1 {
      AllHeld(outstanding, s, n - 1, i);
    }
  }

  // Then every object of every slab is outstanding.
  lemma FullIsOutstanding(st: State, s: nat, i: nat)
    requires Valid(st) && NoSlab(st) && s in st.refs && i < NUM_OBJECTS
    ensures (s, i) in st.outstanding
  {
    InList(st.lists, st.refs, s);
    assert IsFull(st.refs, s);
    AllHeld(st.outstanding, s, NUM_OBJECTS, i);
  }

  // One region of 256 bytes, which is too small for the pages of five objects of 52 bytes but has room for
  // several descriptors.
  const SMALL: Tiling.Region := Tiling.Region(0x1000, 8, 0)

  lemma SmallAlignment()
    ensures Aligned(0x1000, 8) && Aligned(0x1000, 6) && Aligned(0x1040, 6)
    ensures Pow2(6) == 64 && Pow2(8) == 256 && Pow2(9) == 512
  {
    assert Aligned(0x1000, 4) && Aligned(0x100, 4) by { assert Aligned(0x100, 2) && Aligned(0x40, 2); }
    assert Aligned(0x1000, 8) && Aligned(0x1000, 6) by { assert 0x1000 / 2 / 2 / 2 / 2 == 0x100; }
    assert Aligned(0x1040, 6) by { assert 0x1040 / 2 / 2 / 2 / 2 == 0x104 && Aligned(0x104, 2); }
  }

  lemma SmallHasNoRoom(m: B.Mem)
    requires m.regions == [SMALL]
    ensures NoRoom(m, 52, 0)
  {
    SmallAlignment();
    forall j: nat, r, a | PageOrder(52, j) ensures !B.OpenSlot(m, r, a, j, 0) {
      OrderOfTwoPages(j);
    }
  }

  lemma OrderOfTwoPages(j: nat)
    requires PageOrder(52, j)
    ensures j == 9
  {
    SmallAlignment();
    OnePageOrder(52, j, 9);
  }

  lemma OrderOfDescriptor(k: nat)
    requires B.IsOrder(DESCRIPTOR_SIZE + B.HEADER_SIZE, k)
    ensures k == 6
  {
    SmallAlignment();
    assert Pow2(5) == 32;
    assert B.IsOrder(DESCRIPTOR_SIZE + B.HEADER_SIZE, 6);
    B.OneOrder(DESCRIPTOR_SIZE + B.HEADER_SIZE, k, 6);
  }

  // With at most one descriptor handed out there is room for another.
  lemma SmallHasDescriptor(m: B.Mem, d: nat)
    requires m.regions == [SMALL]
    requires forall u | u in m.used :: u == d && m.used[u].order == 6
    ensures !NoDescriptor(m)
  {
    SmallAlignment();
    assert B.IsOrder(DESCRIPTOR_SIZE + B.HEADER_SIZE, 6) by { assert Pow2(5) == 32; }
    var a := if d < 0x1040 then 0x1080 else 0x1000;
    assert Aligned(0x1080, 6) by { assert 0x1080 / 2 / 2 / 2 / 2 == 0x108 && Aligned(0x108, 2); }
    assert B.OpenSlot(m, 0, a, 6, 0);
  }

  // Its first k objects are out.
  ghost predicate Filling(cache: Cache, x: nat, k: nat)
    reads cache, cache.mm, cache.slabs.Values`refcount, cache.slabs.Values`bitmap
  {
    && cache.Invariant() && cache.size == 52 && cache.flags == 0
    && x > B.HEADER_SIZE && cache.slabs.Keys == {x} && cache.slabs[x].buffer == EXHAUSTED
    && |cache.outstanding| == k == cache.peak
    && cache.mm.regions == [SMALL]
    && forall u | u in cache.mm.used :: u == x - B.HEADER_SIZE && cache.mm.used[u].order == 6
  }

  lemma FirstDescriptor(m: B.Mem, m': B.Mem, x: nat)
    requires m.used == map[] && DescriptorTaken(m, m', x)
    ensures x > B.HEADER_SIZE
    ensures m'.regions == m.regions && forall u | u in m'.used :: u == x - B.HEADER_SIZE && m'.used[u].order == 6
  {
    OrderOfDescriptor(m'.used[x - B.HEADER_SIZE].order);
  }

  method SmallMemory() returns (mm: B.Mm)
    ensures fresh(mm) && B.Valid(mm.View()) && mm.regions == [SMALL] && mm.used == map[]
  {
    mm := new B.Mm();
    SmallAlignment();
    Pow2Values();
    forall k: nat | 256 == Pow2(k) ensures k == 8 {
      Pow2Injective(k, 8);
    }
    var r := mm.AddRegion(SMALL.start, 256, SMALL.flags);
    assert 256 == Pow2(8);
    Pow2Injective(mm.regions[0].order, 8);
  }

  lemma Pow2Injective(j: nat, k: nat)
    ensures Pow2(j) == Pow2(k) ==> j == k
  {
    if j < k {
      Pow2Monotone(j, k);
    } else if k < j {
      Pow2Monotone(k, j);
    }
  }

  method NewCache() returns (cache: Cache)
    ensures fresh(cache) && fresh(cache.mm) && cache.Invariant() && cache.size == 52 && cache.flags == 0
    ensures cache.mm.regions == [SMALL] && cache.mm.used == map[]
    ensures cache.slabs == map[] && cache.outstanding == {} && cache.peak == 0
  {
    var mm := SmallMemory();
    Pow2Values();
    cache := new Cache(mm, 52, 1, 0);
    assert cache.slabs.Keys == {};
  }

  method FirstSlab() returns (cache: Cache, ghost x: nat)
    ensures fresh(cache) && fresh(cache.mm) && fresh(cache.slabs.Values) && Filling(cache, x, 1)
  {
    hide Cache.Mirrors, PlacedIn, Valid, NoRoom, NoDescriptor, DescriptorTaken, Start, Cache.NoOverlap, B.Valid;
    cache := NewCache();
    ghost var m := cache.mm.View();
    SmallHasNoRoom(m);
    FullWhenFive(cache.View());
    ghost var o;
    var ptr;
    ptr, o := cache.Alloc();
    x := o.0;
    if x == NULL {
      SmallHasDescriptor(cache.mm.View(), 0);
    } else {
      FirstDescriptor(m, cache.mm.View(), x);
      assert cache.outstanding == {o} && cache.slabs.Keys == {x};
    }
  }

  method NextObject(cache: Cache, ghost x: nat, ghost k: nat)
    requires Filling(cache, x, k) && 1 <= k < 5
    modifies cache, cache.mm, cache.slabs.Values`refcount, cache.slabs.Values`bitmap
    ensures Filling(cache, x, k + 1) && cache.slabs == old(cache.slabs)
  {
    hide Cache.Mirrors, PlacedIn, Valid, NoRoom, NoDescriptor, DescriptorTaken, Start, Cache.NoOverlap, B.Valid;
    FullWhenFive(cache.View());
    ghost var o;
    var ptr;
    ptr, o := cache.Alloc();
  }

  lemma AllOut(cache: Cache, x: nat)
    requires Filling(cache, x, 5)
    ensures NoSlab(cache.View()) && forall i: nat | i < NUM_OBJECTS :: (x, i) in cache.outstanding
  {
    hide PlacedIn, Classified, Accounted, InUse;
    FullWhenFive(cache.View());
    forall i: nat | i < NUM_OBJECTS ensures (x, i) in cache.outstanding {
      FullIsOutstanding(cache.View(), x, i);
    }
  }

  method SixthObject(cache: Cache, ghost x: nat) returns (ghost o: (nat, nat))
    requires Filling(cache, x, 5)
    modifies cache, cache.mm, cache.slabs.Values`refcount, cache.slabs.Values`bitmap
    ensures cache.Invariant() && o.0 != x && o in cache.outstanding && (x, o.1) in cache.outstanding
    ensures x in cache.slabs && cache.slabs[x].buffer == EXHAUSTED
    ensures o.0 in cache.slabs && cache.slabs[o.0].buffer == EXHAUSTED
  {
    hide Cache.Mirrors, PlacedIn, Valid, NoRoom, NoDescriptor, DescriptorTaken, Start, Cache.NoOverlap, B.Valid;
    AllOut(cache, x);
    SmallHasNoRoom(cache.mm.View());
    SmallHasDescriptor(cache.mm.View(), x - B.HEADER_SIZE);
    ghost var slab := cache.slabs[x];
    var ptr;
    ptr, o := cache.Alloc();
  }

  // WHERE TWO OBJECTS SHARE AN ADDRESS: the first slab of such a cache has no page, and neither has the second,
  // which the sixth allocation makes.
  method TwoSlabsWithoutPages() returns (cache: Cache, ghost o: (nat, nat), ghost q: (nat, nat))
    ensures fresh(cache) && cache.Invariant() && o != q && o in cache.outstanding && q in cache.outstanding
    ensures o.0 in cache.Buffers() && q.0 in cache.Buffers()
    ensures Start(cache.Buffers(), cache.size, o) == Start(cache.Buffers(), cache.size, q)
  {
    hide Filling, Cache.Mirrors, PlacedIn, Valid;
    ghost var x;
    cache, x := FirstSlab();
    NextObject(cache, x, 1);
    NextObject(cache, x, 2);
    NextObject(cache, x, 3);
    NextObject(cache, x, 4);
    o := SixthObject(cache, x);
    q := (x, o.1);
  }
}
