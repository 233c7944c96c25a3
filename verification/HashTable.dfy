// lib/hashtable.c: open addressing with linear probing and tombstones.
module HashTable {

  // struct hashtable_node: neither flag set, is_deleted set, is_used set.
  datatype Slot<+K, +V> = Never | Deleted | Used(key: K, value: V)

  // Values are pointers; hashtable_get answers NULL for an absent key.
  type Pointer = nat
  const NULL: Pointer := 0

  const MIN_SIZE: nat := 8

  // The j-th slot of the probe path that starts at h in a table of the given size.
  function Probe(h: nat, j: nat, size: nat): (i: nat)
    requires h < size && j < size
    ensures i < size
  {
    if h + j < size then h + j else h + j - size
  }

  // The path goes up from slot to slot, and round.
  lemma ProbeGoesUp(h: nat, j: nat, size: nat)
    requires h < size && j < size
    ensures Probe(h, j, size) == (h + j) % size
    ensures j + 1 < size ==> Probe(h, j + 1, size) == (Probe(h, j, size) + 1) % size
  {
    NextSlot(Probe(h, j, size), size);
    Reduce(h + j, size);
  }

  lemma Reduce(x: nat, n: nat)
    requires x < n + n
    ensures x % n == if x < n then x else x - n
  {
    if x >= n {
      assert x == n + (x - n);
    }
  }

  // How far slot i is along that path.
  function Distance(h: nat, i: nat, size: nat): (j: nat)
    requires h < size && i < size
    ensures j < size && Probe(h, j, size) == i
    ensures forall k :: 0 <= k < size && Probe(h, k, size) == i ==> k == j
  {
    if h <= i then i - h else i + size - h
  }

  // The path from h reaches slot i without crossing a never-used slot.
  ghost predicate Reaches<K, V>(t: seq<Slot<K, V>>, h: nat, i: nat)
    requires h < |t| && i < |t|
  {
    forall j | 0 <= j < Distance(h, i, |t|) :: t[Probe(h, j, |t|)] != Never
  }

  type Hash<!K> = (nat, K) -> nat

  // A hash function of the source ends in `% ht->size`.
  ghost predicate HashOk<K(!new)>(hash: Hash<K>) {
    forall n, k | n > 0 :: hash(n, k) < n
  }

  // Every stored key is on its own probe path, and no key is stored twice.
  ghost predicate Probing<K(!new), V>(t: seq<Slot<K, V>>, hash: Hash<K>) {
    && HashOk(hash) && |t| > 0
    && (forall i | 0 <= i < |t| && t[i].Used? :: Reaches(t, hash(|t|, t[i].key), i))
    && (forall i, j | 0 <= i < j < |t| && t[i].Used? && t[j].Used? :: t[i].key != t[j].key)
  }

  // The map that a table stands for.
  function Contents<K, V>(t: seq<Slot<K, V>>): (m: map<K, V>)
  {
    if t == [] then map[]
    else
      var m := Contents(t[..|t| - 1]);
      match t[|t| - 1]
      case Used(k, v) => m[k := v]
      case _ => m
  }

  function UsedCount<K, V>(t: seq<Slot<K, V>>): (n: nat)
    ensures n <= |t|
  {
    if t == [] then 0
    else UsedCount(t[..|t| - 1]) + (if t[|t| - 1].Used? then 1 else 0)
  }

  // The number of slots never used.
  function NeverCount<K(==), V(==)>(t: seq<Slot<K, V>>): (n: nat)
    ensures n <= |t|
    ensures n > 0 ==> Never in t
  {
    if t == [] then 0
    else
      assert forall s :: s in t[..|t| - 1] ==> s in t;
      NeverCount(t[..|t| - 1]) + (if t[|t| - 1] == Never then 1 else 0)
  }

  lemma {:induction false} NeverCountUpdate<K, V>(t: seq<Slot<K, V>>, i: nat, s: Slot<K, V>)
    requires i < |t| && s != Never
    ensures NeverCount(t[i := s]) == NeverCount(t) - (if t[i] == Never then 1 else 0)
  {
    var n := |t| - 1;
    if i < n {
      NeverCountUpdate(t[..n], i, s);
      assert t[i := s][..n] == t[..n][i := s];
    } else {
      assert t[i := s][..n] == t[..n];
    }
  }

  lemma {:induction false} AllNever<K, V>(t: seq<Slot<K, V>>)
    requires forall i | 0 <= i < |t| :: t[i] == Never
    ensures NeverCount(t) == |t|
  {
    if t != [] {
      AllNever(t[..|t| - 1]);
    }
  }

  ghost predicate Distinct<K, V>(t: seq<Slot<K, V>>) {
    forall i, j | 0 <= i < j < |t| && t[i].Used? && t[j].Used? :: t[i].key != t[j].key
  }

  // A key is in the map exactly if some slot holds it, with that slot's value.
  lemma {:induction false} ContentsMeaning<K, V>(t: seq<Slot<K, V>>)
    requires Distinct(t)
    ensures forall i | 0 <= i < |t| && t[i].Used? :: t[i].key in Contents(t) && Contents(t)[t[i].key] == t[i].value
    ensures forall k | k in Contents(t) :: exists i :: 0 <= i < |t| && t[i].Used? && t[i].key == k
  {
    if t != [] {
      var s := t[..|t| - 1];
      ContentsMeaning(s);
      forall k | k in Contents(t)
        ensures exists i :: 0 <= i < |t| && t[i].Used? && t[i].key == k
      {
        if k in Contents(s) {
          var i :| 0 <= i < |s| && s[i].Used? && s[i].key == k;
          assert t[i] == s[i];
        } else {
          assert t[|t| - 1].Used?;
        }
      }
    }
  }

  lemma {:induction false} UsedCountUpdate<K, V>(t: seq<Slot<K, V>>, i: nat, s: Slot<K, V>)
    requires i < |t|
    ensures UsedCount(t[i := s]) == UsedCount(t) - (if t[i].Used? then 1 else 0) + (if s.Used? then 1 else 0)
  {
    var n := |t| - 1;
    if i < n {
      UsedCountUpdate(t[..n], i, s);
      assert t[i := s][..n] == t[..n][i := s];
    } else {
      assert t[i := s][..n] == t[..n];
    }
  }

  // hashtable_get_node stops here. With findDeleted it also takes a tombstone.
  predicate Stop<K(==), V>(s: Slot<K, V>, key: K, findDeleted: bool) {
    match s
    case Never => true
    case Deleted => findDeleted
    case Used(k, _) => k == key
  }

  ghost predicate Stops<K, V>(t: seq<Slot<K, V>>, key: K, findDeleted: bool) {
    exists i :: 0 <= i < |t| && Stop(t[i], key, findDeleted)
  }

  // The first slot on the path of key at which the search stops.
  ghost predicate Found<K, V>(t: seq<Slot<K, V>>, h: nat, key: K, findDeleted: bool, i: nat)
    requires h < |t| && i < |t|
  {
    && Stop(t[i], key, findDeleted)
    && forall j | 0 <= j < Distance(h, i, |t|) :: !Stop(t[Probe(h, j, |t|)], key, findDeleted)
  }

  // A lookup that does not take tombstones stops at the key's own slot, or at a never-used slot when
  // the key is not stored.
  lemma SearchDecides<K(!new), V>(t: seq<Slot<K, V>>, hash: Hash<K>, key: K, i: nat)
    requires Probing(t, hash) && i < |t| && Found(t, hash(|t|, key), key, false, i)
    ensures t[i].Used? <==> key in Contents(t)
    ensures t[i].Used? ==> t[i].key == key && Contents(t)[key] == t[i].value
    ensures key !in Contents(t) ==> t[i] == Never
  {
    ContentsMeaning(t);
    if key in Contents(t) {
      var k :| 0 <= k < |t| && t[k].Used? && t[k].key == key;
      var h, n := hash(|t|, key), |t|;
      assert Reaches(t, h, k);
      var dk, di := Distance(h, k, n), Distance(h, i, n);
      assert Probe(h, dk, n) == k && Probe(h, di, n) == i;
    }
  }

  // The first slot of the path from h that holds no key, be it never used or a tombstone.
  ghost predicate FirstFree<K, V>(t: seq<Slot<K, V>>, h: nat, i: nat)
    requires h < |t| && i < |t|
  {
    !t[i].Used? && forall j | 0 <= j < Distance(h, i, |t|) :: t[Probe(h, j, |t|)].Used?
  }

  // A tombstone comes before the first never-used slot of the path from h.
  ghost predicate TombstoneFirst<K, V>(t: seq<Slot<K, V>>, h: nat)
    requires h < |t|
  {
    exists j: nat :: j < |t| && t[Probe(h, j, |t|)] == Deleted && forall k: nat | k < j :: t[Probe(h, k, |t|)] != Never
  }

  // A search that takes tombstones stops there when the key is not stored.
  lemma FreeSlotIsFirst<K(!new), V>(t: seq<Slot<K, V>>, hash: Hash<K>, key: K, i: nat)
    requires Probing(t, hash) && i < |t| && key !in Contents(t) && Found(t, hash(|t|, key), key, true, i)
    ensures FirstFree(t, hash(|t|, key), i) && (t[i] == Deleted <==> TombstoneFirst(t, hash(|t|, key)))
  {
    hide Reaches;
    ContentsMeaning(t);
    var h, n := hash(|t|, key), |t|;
    var d := Distance(h, i, n);
    assert Probe(h, d, n) == i;
    assert forall j | 0 <= j < d :: t[Probe(h, j, n)].Used?;
    if t[i] == Deleted {
      assert forall k: nat | k < d :: t[Probe(h, k, n)] != Never;
    }
  }

  // EXACTLY WHEN A LOOKUP ENDS: the key is stored or some slot was never used. (Tombstones never turn
  // back into never-used slots, except in a resize.)
  lemma LookupEnds<K(!new), V>(t: seq<Slot<K, V>>, hash: Hash<K>, key: K)
    requires Probing(t, hash)
    ensures Stops(t, key, false) <==> key in Contents(t) || Never in t
  {
    ContentsMeaning(t);
    if Never in t {
      var i :| 0 <= i < |t| && t[i] == Never;
      assert Stop(t[i], key, false);
    }
    if key in Contents(t) {
      var i :| 0 <= i < |t| && t[i].Used? && t[i].key == key;
      assert Stop(t[i], key, false);
    }
  }

  // In a table whose slots have all been used and freed, no lookup ends.
  lemma AllTombstonesLoop<K(!new), V>(hash: Hash<K>, key: K)
    requires HashOk(hash)
    ensures var t := seq<Slot<K, V>>(MIN_SIZE, _ => Deleted); Probing(t, hash) && UsedCount(t) == 0 && !Stops(t, key, false)
  {
    var t := seq<Slot<K, V>>(MIN_SIZE, _ => Deleted);
    NoneUsed(t);
  }

  lemma {:induction false} NoneUsed<K, V>(t: seq<Slot<K, V>>)
    requires forall i | 0 <= i < |t| :: !t[i].Used?
    ensures UsedCount(t) == 0 && Contents(t) == map[]
  {
    if t != [] {
      NoneUsed(t[..|t| - 1]);
    }
  }

  // Storing at a slot that the search found keeps every probe path.
  lemma StoreKeepsProbing<K(!new), V>(t: seq<Slot<K, V>>, hash: Hash<K>, key: K, value: V, i: nat)
    requires Probing(t, hash) && i < |t|
    requires Reaches(t, hash(|t|, key), i)
    requires if key in Contents(t) then t[i].Used? && t[i].key == key else !t[i].Used?
    ensures Probing(t[i := Used(key, value)], hash)
    ensures Contents(t[i := Used(key, value)]) == Contents(t)[key := value]
    ensures UsedCount(t[i := Used(key, value)]) == UsedCount(t) + (if key in Contents(t) then 0 else 1)
  {
    hide Contents, Reaches;
    StoreKeepsPaths(t, hash, key, value, i);
    StoreSetsKey(t, key, value, i);
    UsedCountUpdate(t, i, Used(key, value));
  }

  lemma StoreKeepsPaths<K(!new), V>(t: seq<Slot<K, V>>, hash: Hash<K>, key: K, value: V, i: nat)
    requires Probing(t, hash) && i < |t| && Reaches(t, hash(|t|, key), i)
    requires if key in Contents(t) then t[i].Used? && t[i].key == key else !t[i].Used?
    ensures Probing(t[i := Used(key, value)], hash)
  {
    hide Contents;
    var t' := t[i := Used(key, value)];
    ContentsMeaning(t);
    forall a, b | 0 <= a < b < |t'| && t'[a].Used? && t'[b].Used?
      ensures t'[a].key != t'[b].key
    {
    }
    forall a | 0 <= a < |t'| && t'[a].Used?
      ensures Reaches(t', hash(|t'|, t'[a].key), a)
    {
      assert a != i ==> Reaches(t, hash(|t|, t[a].key), a);
    }
  }

  lemma StoreSetsKey<K, V>(t: seq<Slot<K, V>>, key: K, value: V, i: nat)
    requires Distinct(t) && i < |t| && Distinct(t[i := Used(key, value)])
    requires if key in Contents(t) then t[i].Used? && t[i].key == key else !t[i].Used?
    ensures Contents(t[i := Used(key, value)]) == Contents(t)[key := value]
  {
    hide Contents;
    var t' := t[i := Used(key, value)];
    ContentsMeaning(t);
    ContentsMeaning(t');
    var m, m' := Contents(t)[key := value], Contents(t');
    forall k | k in m'
      ensures k in m && m[k] == m'[k]
    {
      var a :| 0 <= a < |t'| && t'[a].Used? && t'[a].key == k;
      assert a != i ==> t[a] == t'[a];
    }
    forall k | k in m
      ensures k in m'
    {
      if k != key {
        var a :| 0 <= a < |t| && t[a].Used? && t[a].key == k;
        assert t'[a] == t[a];
      } else {
        assert t'[i].key == key;
      }
    }
  }

  lemma RemoveKeepsProbing<K(!new), V>(t: seq<Slot<K, V>>, hash: Hash<K>, i: nat)
    requires Probing(t, hash) && i < |t| && t[i].Used?
    ensures Probing(t[i := Deleted], hash)
    ensures Contents(t[i := Deleted]) == Contents(t) - {t[i].key}
    ensures UsedCount(t[i := Deleted]) == UsedCount(t) - 1
  {
    var t' := t[i := Deleted];
    ContentsMeaning(t);
    UsedCountUpdate(t, i, Deleted);
    forall a | 0 <= a < |t'| && t'[a].Used?
      ensures Reaches(t', hash(|t'|, t'[a].key), a)
    {
      assert Reaches(t, hash(|t|, t[a].key), a);
    }
    ContentsMeaning(t');
    var m, m' := Contents(t) - {t[i].key}, Contents(t');
    forall k | k in m'
      ensures k in m && m[k] == m'[k]
    {
      var a :| 0 <= a < |t'| && t'[a].Used? && t'[a].key == k;
      assert t[a] == t'[a] && a != i;
      assert a < i || i < a;
    }
    forall k | k in m
      ensures k in m'
    {
      var a :| 0 <= a < |t| && t[a].Used? && t[a].key == k;
      assert t'[a] == t[a];
    }
  }

  // ----- tables without tombstones -----

  lemma {:induction false} NeverLeft<K, V>(t: seq<Slot<K, V>>)
    requires Deleted !in t && UsedCount(t) < |t|
    ensures Never in t
  {
    var s, last := t[..|t| - 1], t[|t| - 1];
    assert last in t;
    if last.Used? {
      assert Deleted !in s;
      NeverLeft(s);
      assert forall x :: x in s ==> x in t;
    }
  }

  // The keys that resize has not copied yet are not in the part it has copied.
  lemma NextKeyIsNew<K, V>(t: seq<Slot<K, V>>, i: nat)
    requires Distinct(t) && i < |t| && t[i].Used?
    ensures t[i].key !in Contents(t[..i])
    ensures Contents(t[..i + 1]) == Contents(t[..i])[t[i].key := t[i].value]
    ensures UsedCount(t[..i + 1]) == UsedCount(t[..i]) + 1
  {
    ContentsMeaning(t[..i]);
    assert t[..i + 1][..i] == t[..i];
  }

  lemma SkippedSlot<K, V>(t: seq<Slot<K, V>>, i: nat)
    requires i < |t| && !t[i].Used?
    ensures Contents(t[..i + 1]) == Contents(t[..i])
    ensures UsedCount(t[..i + 1]) == UsedCount(t[..i])
  {
    assert t[..i + 1][..i] == t[..i];
  }

  lemma NextSlotCounts<K, V>(t: seq<Slot<K, V>>, i: nat)
    requires Distinct(t) && i < |t|
    ensures t[i].Used? ==> t[i].key !in Contents(t[..i])
    ensures Contents(t[..i + 1]) == if t[i].Used? then Contents(t[..i])[t[i].key := t[i].value] else Contents(t[..i])
    ensures UsedCount(t[..i + 1]) == UsedCount(t[..i]) + if t[i].Used? then 1 else 0
  {
    if t[i].Used? {
      NextKeyIsNew(t, i);
    } else {
      SkippedSlot(t, i);
    }
  }

  lemma {:induction false} UsedCountPrefix<K, V>(t: seq<Slot<K, V>>, i: nat)
    requires i <= |t|
    ensures UsedCount(t[..i]) <= UsedCount(t)
    decreases |t|
  {
    if i < |t| {
      var s := t[..|t| - 1];
      UsedCountPrefix(s, i);
      assert s[..i] == t[..i];
    } else {
      assert t[..i] == t;
    }
  }

  // hash_uint
  function HashUint(n: nat, key: nat): nat {
    if n == 0 then 0 else key % n
  }

  lemma HashUintOk()
    ensures HashOk(HashUint)
  {
  }

  // One add and one remove of a key that was never there leave a tombstone for good: after eight such
  // rounds with hash_uint a table of the initial size is the one of AllTombstonesLoop, although it
  // never held more than one key.
  function Aged(k: nat): seq<Slot<nat, Pointer>>
    requires k <= MIN_SIZE
  {
    seq(MIN_SIZE, i requires 0 <= i < MIN_SIZE => if i < k then Deleted else Never)
  }

  lemma OneRoundOfAging(k: nat, value: Pointer)
    requires k < MIN_SIZE
    ensures Probing(Aged(k), HashUint)
    ensures Found(Aged(k), HashUint(MIN_SIZE, k), k, false, k)
    ensures Found(Aged(k), HashUint(MIN_SIZE, k), k, true, k)
    ensures UsedCount(Aged(k)[k := Used(k, value)]) == 1
    ensures Found(Aged(k)[k := Used(k, value)], HashUint(MIN_SIZE, k), k, false, k)
    ensures Aged(k)[k := Used(k, value)][k := Deleted] == Aged(k + 1)
    ensures Aged(MIN_SIZE) == seq(MIN_SIZE, _ => Deleted)
  {
    assert Distance(k, k, MIN_SIZE) == 0;
    NoneUsed(Aged(k));
    UsedCountUpdate(Aged(k), k, Used(k, value));
  }

  lemma NextSlot(h: nat, n: nat)
    requires h < n
    ensures (h + 1) % n == if h + 1 < n then h + 1 else 0
  {
  }

  // The stored keys in slot order.
  function UsedKeys<K, V>(t: seq<Slot<K, V>>): seq<K> {
    if t == [] then []
    else
      var keys := UsedKeys(t[..|t| - 1]);
      match t[|t| - 1]
      case Used(k, _) => keys + [k]
      case _ => keys
  }

  // They are the keys of the map, each once.
  lemma {:induction false} UsedKeysAreTheKeys<K, V>(t: seq<Slot<K, V>>)
    requires Distinct(t)
    ensures forall k :: k in UsedKeys(t) <==> k in Contents(t)
    ensures forall a, b | 0 <= a < b < |UsedKeys(t)| :: UsedKeys(t)[a] != UsedKeys(t)[b]
  {
    if t != [] {
      var n := |t| - 1;
      UsedKeysAreTheKeys(t[..n]);
      if t[n].Used? {
        NextKeyIsNew(t, n);
        assert t[..n + 1] == t;
      }
    }
  }

  lemma {:induction false} UnusedAddNoKeys<K, V>(t: seq<Slot<K, V>>, i: nat, j: nat)
    requires i <= j <= |t| && forall k | i <= k < j :: !t[k].Used?
    ensures UsedKeys(t[..j]) == UsedKeys(t[..i])
    decreases j
  {
    if i < j {
      UnusedAddNoKeys(t, i, j - 1);
      assert t[..j][..j - 1] == t[..j - 1];
    }
  }

  // struct hashtable_iterator
  class Iterator<K(0)> {
    var i: nat
    var key: K
    var value: Pointer

    constructor (key: K)
      ensures i == 0
    {
      i, this.key, value := 0, key, NULL;
    }
  }

  class HashTable<K(==, !new, 0)> {
    var table: array<Slot<K, Pointer>>
    var count: nat
    const hash: Hash<K>
    ghost var stores: nat // adds of keys not stored, since hashtable_create or into the table of the last resize

    // The map that the table stands for.
    ghost function Model(): map<K, Pointer>
      reads this, table
    {
      Contents(table[..])
    }

    ghost predicate Consistent()
      reads this, table
    {
      Probing(table[..], hash) && count == UsedCount(table[..])
    }

    // Holds between public calls: less than half of the slots are in use.
    ghost predicate Valid()
      reads this, table
    {
      Consistent() && count < table.Length / 2 && Bounded()
    }

    // A slot is used for the first time only by the add of a key not stored.
    ghost predicate Bounded()
      reads this, table
    {
      NeverCount(table[..]) + stores >= table.Length
    }

    // A search for key comes to an end (see LookupEnds).
    ghost predicate Ends(key: K)
      reads this, table
    {
      key in Model() || Never in table[..]
    }

    // HOW LONG LOOKUPS ARE SAFE: no search can hang before as many keys have been added as there are slots,
    // counting from hashtable_create or, with the keys it copied, from the last resize. OneRoundOfAging
    // shows that one add more can be too many.
    lemma FewStoresEnd(key: K)
      requires Valid() && stores < table.Length
      ensures Ends(key)
    {
    }

    // hashtable_create
    constructor (hash: Hash<K>)
      requires HashOk(hash)
      ensures Valid() && fresh(table) && this.hash == hash
      ensures Model() == map[] && Never in table[..] && Deleted !in table[..] && table.Length == MIN_SIZE
      ensures stores == 0
    {
      table := new Slot<K, Pointer>[MIN_SIZE](_ => Never);
      count := 0;
      this.hash := hash;
      stores := 0;
      new;
      NoneUsed(table[..]);
      AllNever(table[..]);
      assert table[..][0] == Never;
    }

    method GetNode(key: K, findDeleted: bool) returns (h: nat)
      requires Probing(table[..], hash) && Stops(table[..], key, findDeleted)
      ensures h < table.Length && Found(table[..], hash(table.Length, key), key, findDeleted, h)
    {
      h := hash(table.Length, key);
      ghost var start, j, t := h, 0, table[..];
      ghost var i :| 0 <= i < |t| && Stop(t[i], key, findDeleted);
      while !Stop(table[h], key, findDeleted)
        invariant j < |t| && h == Probe(start, j, |t|)
        invariant forall k | 0 <= k < j :: !Stop(t[Probe(start, k, |t|)], key, findDeleted)
        decreases |t| - j
      {
        assert Distance(start, i, |t|) > j;
        NextSlot(h, table.Length);
        h := (h + 1) % table.Length;
        j := j + 1;
      }
    }

    method Get(key: K) returns (value: Pointer)
      requires Valid() && Ends(key)
      ensures value == if key in Model() then Model()[key] else NULL
    {
      LookupEnds(table[..], hash, key);
      var node := GetNode(key, false);
      SearchDecides(table[..], hash, key, node);
      value := if table[node].Used? then table[node].value else NULL;
    }

    // A stored NULL cannot be told from an absent key.
    method Has(key: K) returns (found: bool)
      requires Valid() && Ends(key)
      ensures found <==> key in Model() && Model()[key] != NULL
    {
      var value := Get(key);
      found := value != NULL;
    }

    method Remove(key: K)
      requires Valid() && Ends(key)
      modifies this`count, table
      ensures Valid() && Model() == old(Model()) - {key}
      ensures forall i | 0 <= i < table.Length ::
                table[i] == if old(table[i]).Used? && old(table[i]).key == key then Deleted else old(table[i])
    {
      LookupEnds(table[..], hash, key);
      var node := GetNode(key, false);
      SearchDecides(table[..], hash, key, node);
      ContentsMeaning(table[..]);
      if !table[node].Used? {
        return;
      }
      RemoveKeepsProbing(table[..], hash, node);
      NeverCountUpdate(table[..], node, Deleted);
      ghost var t := table[..];
      count := count - 1;
      table[node] := Deleted;
      assert table[..] == t[node := Deleted];
    }

    // The slot where hashtable_add stores: the key's own, else the first free one on its path.
    method StorePlace(key: K) returns (node: nat)
      requires Consistent() && Ends(key)
      ensures node < table.Length && Reaches(table[..], hash(table.Length, key), node)
      ensures if key in Model() then table[node].Used? && table[node].key == key else !table[node].Used?
      ensures key !in Model() ==> FirstFree(table[..], hash(table.Length, key), node)
      ensures key !in Model() ==> (table[node] == Deleted <==> TombstoneFirst(table[..], hash(table.Length, key)))
    {
      LookupEnds(table[..], hash, key);
      node := GetNode(key, false);
      ghost var h := hash(table.Length, key);
      SearchDecides(table[..], hash, key, node);
      if !table[node].Used? {
        assert Stop(table[..][node], key, true);
        node := GetNode(key, true);
        ContentsMeaning(table[..]);
        FreeSlotIsFirst(table[..], hash, key, node);
      }
      assert forall j | 0 <= j < Distance(h, node, table.Length) :: table[..][Probe(h, j, table.Length)] != Never;
    }

    // The key is in its own slot, if it had one, and otherwise in the first free one of its path.
    ghost predicate StoredAt(was: seq<Slot<K, Pointer>>, now: seq<Slot<K, Pointer>>, key: K, value: Pointer)
      requires |was| > 0 && HashOk(hash)
    {
      exists i: nat :: i < |was| && now == was[i := Used(key, value)]
                       && if key in Contents(was) then was[i].Used? && was[i].key == key else FirstFree(was, hash(|was|, key), i)
    }

    // hashtable_add. The table doubles when half of its slots would be in use.
    method Add(key: K, value: Pointer)
      requires Valid() && Ends(key)
      modifies this, table
      ensures Valid() && Model() == old(Model())[key := value]
      ensures table == old(table) || fresh(table)
      ensures count == old(count) + (if key in old(Model()) then 0 else 1)
      ensures table.Length == if count < old(table.Length) / 2 then old(table.Length) else 2 * old(table.Length)
      ensures Deleted !in old(table[..]) || table.Length != old(table.Length) ==> Deleted !in table[..]
      ensures stores == if table.Length != old(table.Length) then count
                        else if key in old(Model()) then old(stores) else old(stores) + 1
      ensures table.Length == old(table.Length) ==>
                NeverCount(table[..]) ==
                NeverCount(old(table[..])) -
                (if key in old(Model()) || TombstoneFirst(old(table[..]), hash(table.Length, key)) then 0 else 1)
      ensures table.Length == old(table.Length) ==> StoredAt(old(table[..]), table[..], key, value)
      decreases count + 1 >= table.Length / 2, 1
    {
      ghost var t := table[..];
      var node := StorePlace(key);
      StoreKeepsProbing(t, hash, key, value, node);
      NeverCountUpdate(t, node, Used(key, value));
      if !table[node].Used? {
        count, stores := count + 1, stores + 1;
      }
      table[node] := Used(key, value);
      assert table[..] == t[node := Used(key, value)];
      if count >= table.Length / 2 {
        Resize(table.Length * 2);
      }
    }

    // hashtable_resize: the adds in here never resize again (they have the smaller measure).
    method Resize(size: nat)
      requires Consistent() && count < table.Length && size == 2 * table.Length
      modifies this
      ensures Valid() && fresh(table) && table.Length == size
      ensures Model() == old(Model()) && count == old(count) == stores
      ensures Deleted !in table[..]
      decreases true, 0
    {
      hide Reaches, HashOk, Contents, UsedCount, NeverCount;
      var oldTable, oldSize := table, table.Length;
      ghost var t := oldTable[..];
      table := new Slot<K, Pointer>[size](_ => Never);
      count, stores := 0, 0;
      NoneUsed(table[..]);
      AllNever(table[..]);
      NoneUsed(t[..0]);
      var i := 0;
      while i < oldSize
        invariant 0 <= i <= oldSize && fresh(table) && table.Length == size
        invariant oldTable[..] == t
        invariant Valid() && Deleted !in table[..]
        invariant Model() == Contents(t[..i]) && count == stores == UsedCount(t[..i])
      {
        UsedCountPrefix(t, i);
        UsedCountPrefix(t, i + 1);
        NextSlotCounts(t, i);
        if oldTable[i].Used? {
          NeverLeft(table[..]);
          Add(oldTable[i].key, oldTable[i].value);
        }
        i := i + 1;
      }
      assert t[..i] == t;
    }

    // hashtable_iterate: the next used slot, if any.
    method Iterate(iter: Iterator<K>) returns (more: bool)
      requires Consistent()
      modifies iter
      ensures more <==> exists i :: old(iter.i) <= i < table.Length && table[i].Used?
      ensures more ==> old(iter.i) < iter.i <= table.Length && table[iter.i - 1] == Used(iter.key, iter.value)
      ensures more ==> forall i | old(iter.i) <= i < iter.i - 1 :: !table[i].Used?
      ensures !more ==> iter.key == old(iter.key) && iter.value == old(iter.value)
    {
      if iter.i >= table.Length {
        return false;
      }
      var i := iter.i;
      while i < table.Length && !table[i].Used?
        invariant old(iter.i) <= i <= table.Length
        invariant forall j | old(iter.i) <= j < i :: !table[j].Used?
      {
        i := i + 1;
      }
      iter.i := i + 1;
      if i >= table.Length {
        return false;
      }
      iter.key, iter.value := table[i].key, table[i].value;
      return true;
    }

    // task_free_fdnum, as far as the table goes: nothing is done for an absent key or a stored NULL.
    method Free(key: K)
      requires Valid() && Ends(key)
      modifies this`count, table
      ensures Valid()
      ensures forall i | 0 <= i < table.Length :: table[i] == Freed(old(table[i]), key)
    {
      LookupEnds(table[..], hash, key);
      ContentsMeaning(table[..]);
      var value := Get(key);
      if value == NULL {
        return;
      }
      Remove(key);
    }

    // The table once, from t, the keys in the first n slots have been freed.
    ghost predicate FreedUpTo(t: seq<Slot<K, Pointer>>, n: nat)
      reads this, table
    {
      && |t| == table.Length
      && forall j | 0 <= j < |t| :: table[j] == if j < n && t[j].Used? then Freed(t[j], t[j].key) else t[j]
    }

    method FreeVisited(key: K, ghost i: nat, ghost t: seq<Slot<K, Pointer>>)
      requires Valid() && Distinct(t) && FreedUpTo(t, i) && i < |t| && t[i].Used? && t[i].key == key
      modifies this`count, table
      ensures Valid() && FreedUpTo(t, i + 1)
    {
      ContentsMeaning(table[..]);
      assert table[..][i].Used? && table[..][i].key == key;
      Free(key);
    }

    // The condition of the loop in task_destroy.
    method NextVisit(iter: Iterator<K>, ghost t: seq<Slot<K, Pointer>>) returns (more: bool)
      requires Valid() && iter.i <= |t| && FreedUpTo(t, iter.i)
      modifies iter
      ensures more ==> 0 < iter.i <= |t| && t[iter.i - 1] == Used(iter.key, iter.value) && FreedUpTo(t, iter.i - 1)
      ensures more ==> old(iter.i) < iter.i && UsedKeys(t[..iter.i]) == UsedKeys(t[..old(iter.i)]) + [iter.key]
      ensures !more ==> UsedKeys(t[..old(iter.i)]) == UsedKeys(t) && FreedUpTo(t, |t|)
    {
      hide Freed, NeverCount, Contents, UsedCount, Reaches;
      ghost var from := iter.i;
      more := Iterate(iter);
      ghost var n := if more then iter.i - 1 else |t|;
      assert forall j | from <= j < n :: !table[j].Used?;
      UnusedAddNoKeys(t, from, n);
      if more {
        assert t[..n + 1][..n] == t[..n];
      } else {
        assert t[..n] == t;
      }
    }

    // The loop of task_destroy, which removes each key that it visits: it visits every stored key exactly
    // once (see UsedKeysAreTheKeys), in spite of the removals, and leaves none but those with a NULL.
    method FreeAll(unset: K) returns (keys: seq<K>)
      requires Valid()
      modifies this`count, table
      ensures Valid() && keys == UsedKeys(old(table[..]))
      ensures forall k :: k in Model() <==> k in old(Model()) && old(Model())[k] == NULL
    {
      hide Freed, NeverCount, Contents, UsedCount, Reaches, UsedKeys, HashTable.FreedUpTo;
      var iter := new Iterator(unset);
      keys := [];
      ghost var t := table[..];
      NothingFreed(t);
      var more := NextVisit(iter, t);
      while more
        invariant Valid() && (more ==> 0 < iter.i <= |t| && t[iter.i - 1] == Used(iter.key, iter.value))
        invariant more ==> FreedUpTo(t, iter.i - 1) && UsedKeys(t[..iter.i]) == keys + [iter.key]
        invariant !more ==> FreedUpTo(t, |t|) && keys == UsedKeys(t)
        decreases more, |t| - iter.i
      {
        keys := keys + [iter.key];
        FreeVisited(iter.key, iter.i - 1, t);
        more := NextVisit(iter, t);
      }
      AllFreed(t);
    }

    lemma NothingFreed(t: seq<Slot<K, Pointer>>)
      requires t == table[..]
      ensures FreedUpTo(t, 0) && UsedKeys(t[..0]) == []
    {
    }

    lemma AllFreed(t: seq<Slot<K, Pointer>>)
      requires Distinct(t) && FreedUpTo(t, |t|)
      ensures forall k :: k in Model() <==> k in Contents(t) && Contents(t)[k] == NULL
    {
      FreedModel(t, table[..]);
    }
  }

  // The slot after task_free_fdnum of a key.
  function Freed<K(==)>(s: Slot<K, Pointer>, key: K): Slot<K, Pointer> {
    if s.Used? && s.key == key && s.value != NULL then Deleted else s
  }

  lemma FreedModel<K>(t: seq<Slot<K, Pointer>>, t': seq<Slot<K, Pointer>>)
    requires |t| == |t'| && Distinct(t)
    requires forall j | 0 <= j < |t| :: t'[j] == if t[j].Used? then Freed(t[j], t[j].key) else t[j]
    ensures forall k :: k in Contents(t') <==> k in Contents(t) && Contents(t)[k] == NULL
  {
    hide Contents;
    ContentsMeaning(t);
    ContentsMeaning(t');
    forall k ensures k in Contents(t') <==> k in Contents(t) && Contents(t)[k] == NULL {
      if k in Contents(t') {
        var i :| 0 <= i < |t'| && t'[i].Used? && t'[i].key == k;
        assert t[i].Used? && t[i].key == k;
      }
      if k in Contents(t) && Contents(t)[k] == NULL {
        var i :| 0 <= i < |t| && t[i].Used? && t[i].key == k;
        assert t'[i].Used? && t'[i].key == k;
      }
    }
  }
}
