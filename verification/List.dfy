// lib/list.c at the level of its pointers: a circular doubly linked intrusive list. Every node is in
// exactly one ring; a list is a ring seen from its head node.
module List {
  import opened Seqs

  class Node {
    var prev: Node
    var next: Node

    // list_init
    constructor ()
      ensures Ring([this])
    {
      prev, next := this, this;
    }
  }

  function After(i: nat, n: nat): nat
    requires i < n
  {
    if i + 1 < n then i + 1 else 0
  }

  ghost predicate Linked(r: seq<Node>)
    reads r
  {
    forall i | 0 <= i < |r| :: r[i].next == r[After(i, |r|)] && r[After(i, |r|)].prev == r[i]
  }

  // Following next from r[0] visits exactly the nodes of r, in order, and comes back; prev undoes next.
  ghost predicate Ring(r: seq<Node>)
    reads r
  {
    r != [] && NoDup(r) && Linked(r)
  }

  // The list with this head node holds s.
  ghost predicate ListOf(head: Node, s: seq<Node>)
    reads head, s
  {
    Ring([head] + s)
  }

  // Where a ring is said to start is immaterial.
  lemma RotatedRing(r: seq<Node>, k: nat)
    requires Ring(r) && k < |r|
    ensures Ring(r[k..] + r[..k])
  {
    var q, n := r[k..] + r[..k], |r|;
    assert forall i | 0 <= i < n :: q[i] == r[if i + k < n then i + k else i + k - n];
    forall i | 0 <= i < n
      ensures q[i].next == q[After(i, n)] && q[After(i, n)].prev == q[i]
    {
      var j := if i + k < n then i + k else i + k - n;
      assert q[After(i, n)] == r[After(j, n)];
    }
  }

  // Only the nodes of a list hang together with it.
  lemma RingIsClosed(r: seq<Node>, x: Node)
    requires Ring(r) && x in r
    ensures x.next in r && x.prev in r
  {
    var i :| 0 <= i < |r| && r[i] == x;
    assert r[After(i, |r|)] in r;
    var j := if i > 0 then i - 1 else |r| - 1;
    assert After(j, |r|) == i && r[j] in r;
  }

  method IsEmpty(head: Node, ghost s: seq<Node>) returns (empty: bool)
    requires ListOf(head, s)
    ensures empty <==> s == []
  {
    var r := [head] + s;
    assert r[0].next == r[After(0, |r|)];
    empty := head == head.next;
  }

  // list_add(head, node): node goes in front of head, which closes the ring r that starts at head. Adding a
  // lone head to itself, as rotating an empty list does, changes nothing.
  method Add(head: Node, node: Node, ghost r: seq<Node>)
    requires Ring(r) && r[0] == head
    requires node !in r || r == [node]
    modifies r, node
    ensures Ring(if node == head then r else r + [node])
  {
    ghost var n := |r|;
    assert r[n - 1].next == r[After(n - 1, n)] && r[0].prev == r[n - 1];
    node.next := head;
    node.prev := head.prev;
    head.prev.next := node;
    head.prev := node;
    if node != head {
      NoDupAppend(r, node);
      ghost var q := r + [node];
      forall i | 0 <= i < n
        ensures q[i].next == q[i + 1] && q[i + 1].prev == q[i]
      {
        assert i < n - 1 ==> old(r[i].next) == r[After(i, n)] && old(r[After(i, n)].prev) == r[i];
      }
    }
  }

  // list_del(node), where the ring r starts at node: node is alone and the others stay linked.
  method Del(node: Node, ghost r: seq<Node>)
    requires Ring(r) && r[0] == node
    modifies r
    ensures Ring([node])
    ensures |r| > 1 ==> Ring(r[1..])
  {
    hide Linked;
    ghost var n := |r|;
    LinkedInLine(r);
    assert n > 1 ==> r[0].next == r[1] && r[1].prev == r[0];
    node.prev.next := node.next;
    node.next.prev := node.prev;
    node.prev, node.next := node, node;
    LineIsLinked([node]);
    if n > 1 {
      ghost var q := r[1..];
      assert forall i | 0 <= i < |q| :: q[i] == r[i + 1];
      assert q[|q| - 1].next == q[0] && q[0].prev == q[|q| - 1];
      assert InLine(q);
      LineIsLinked(q);
    }
  }

  // The links between the ends of a ring, and all the others.
  ghost predicate InLine(r: seq<Node>)
    reads r
  {
    forall i, j | 0 <= i < j == i + 1 < |r| :: r[i].next == r[j] && r[j].prev == r[i]
  }

  lemma LinkedInLine(r: seq<Node>)
    requires r != [] && Linked(r)
    ensures InLine(r) && r[|r| - 1].next == r[0] && r[0].prev == r[|r| - 1]
  {
    var n := |r|;
    assert r[n - 1].next == r[After(n - 1, n)];
    forall i, j | 0 <= i < j == i + 1 < n ensures r[i].next == r[j] && r[j].prev == r[i] {
      assert r[i].next == r[After(i, n)];
    }
  }

  lemma LineIsLinked(r: seq<Node>)
    requires r != [] && InLine(r) && r[|r| - 1].next == r[0] && r[0].prev == r[|r| - 1]
    ensures Linked(r)
  {
    forall i | 0 <= i < |r| ensures r[i].next == r[After(i, |r|)] && r[After(i, |r|)].prev == r[i] {
    }
  }

  // A ring as seen from its node k.
  function From<T>(r: seq<T>, k: nat): seq<T>
    requires k < |r|
  {
    r[k..] + r[..k]
  }

  lemma SeenFrom(r: seq<Node>, k: nat)
    requires Ring(r) && k < |r|
    ensures Ring(From(r, k)) && From(r, k)[0] == r[k]
    ensures forall i | 0 <= i < |From(r, k)| :: From(r, k)[i] in r
  {
    RotatedRing(r, k);
  }

  // list_del(node) for a node of the list of head: the others keep their order.
  method DelFrom(node: Node, ghost head: Node, ghost s: seq<Node>)
    requires ListOf(head, s) && node in s
    modifies head, s
    ensures ListOf(head, Without(s, node)) && ListOf(node, [])
  {
    ghost var i :| 0 <= i < |s| && s[i] == node;
    ghost var r := [head] + s;
    assert r[i + 1] == node;
    RotatedRing(r, i + 1);
    Del(node, From(r, i + 1));
    RemovedFrom(head, s, i);
    assert [node] + [] == [node];
  }

  // Seen from the head, a ring that lost the list's node i is the list without it.
  lemma RemovedFrom(head: Node, s: seq<Node>, i: nat)
    requires i < |s| && NoDup([head] + s)
    requires Ring(From([head] + s, i + 1)[1..])
    ensures ListOf(head, Without(s, s[i]))
  {
    var rest := From([head] + s, i + 1)[1..];
    assert forall j | 0 <= j < |s| :: s[j] == ([head] + s)[j + 1];
    WithoutAt(s, i);
    RotatedRing(rest, |s| - i - 1);
    RotatedBack(head, s, i);
  }

  lemma RotatedBack<T>(head: T, s: seq<T>, i: nat)
    requires i < |s|
    ensures From(From([head] + s, i + 1)[1..], |s| - i - 1) == [head] + (s[..i] + s[i + 1..])
  {
    assert From([head] + s, i + 1)[1..] == s[i + 1..] + ([head] + s[..i]);
  }

  // Rotations move the head node; seen from the head, one end of the list moves to the other.
  function RotatedAnticlockwise<T>(s: seq<T>): seq<T> {
    if s == [] then [] else s[1..] + [s[0]]
  }

  function RotatedClockwise<T>(s: seq<T>): seq<T> {
    if s == [] then [] else [s[|s| - 1]] + s[..|s| - 1]
  }

  lemma AnticlockwiseRing(s: seq<Node>)
    requires Ring(s)
    ensures Ring(RotatedAnticlockwise(s)) && RotatedAnticlockwise(s)[0] == s[0].next
  {
    var k := After(0, |s|);
    assert s[0].next == s[k];
    RotatedRing(s, k);
    assert From(s, k) == RotatedAnticlockwise(s);
  }

  lemma ClockwiseRing(s: seq<Node>)
    requires Ring(s)
    ensures Ring(RotatedClockwise(s)) && RotatedClockwise(s)[0] == s[|s| - 1]
    ensures forall i | 0 <= i < |RotatedClockwise(s)| :: RotatedClockwise(s)[i] in s
  {
    SeenFrom(s, |s| - 1);
    assert From(s, |s| - 1) == RotatedClockwise(s);
  }

  method RotateAnticlockwise(head: Node, ghost s: seq<Node>)
    requires ListOf(head, s)
    modifies head, s
    ensures ListOf(head, RotatedAnticlockwise(s))
  {
    ghost var r, t := [head] + s, RotatedAnticlockwise(s);
    assert r[0].next == r[After(0, |r|)];
    var first := head.next;
    Del(head, r);
    assert r[1..] == s;
    if s != [] {
      AnticlockwiseRing(s);
    }
    Add(first.next, head, if s == [] then [head] else t);
    MovedHead(head, t);
  }

  lemma Neighbours(r: seq<Node>, i: nat)
    requires Ring(r) && i < |r|
    ensures r[i].next == r[After(i, |r|)] && r[After(i, |r|)].prev == r[i]
  {
  }

  lemma HeadIsApart(head: Node, s: seq<Node>)
    requires ListOf(head, s)
    ensures head !in s
  {
    var r := [head] + s;
    forall i | 0 <= i < |s| ensures s[i] != head {
      assert r[0] == head && r[i + 1] == s[i];
    }
  }

  lemma NoneRotated<T>()
    ensures RotatedClockwise<T>([]) == []
  {
  }

  method RotateClockwise(head: Node, ghost s: seq<Node>)
    requires ListOf(head, s)
    modifies head, s
    ensures ListOf(head, RotatedClockwise(s))
  {
    hide Linked, NoDup, RotatedClockwise;
    ghost var r, t := [head] + s, RotatedClockwise(s);
    Neighbours(r, |s|);
    HeadIsApart(head, s);
    var last := head.prev;
    Del(head, r);
    assert r[1..] == s;
    NoneRotated<Node>();
    if s != [] {
      ClockwiseRing(s);
    }
    ghost var ring := if s == [] then [head] else t;
    assert forall i | 0 <= i < |ring| :: ring[i] == head || ring[i] in s;
    Add(last, head, ring);
    if s == [] {
      assert [head] + t == [head];
    } else {
      MovedHead(head, t);
    }
  }

  // The head was put in front of t[0]; seen from the head, the list is t.
  lemma MovedHead(head: Node, t: seq<Node>)
    requires Ring(t + [head])
    ensures ListOf(head, t)
  {
    hide Linked, NoDup;
    var q := t + [head];
    RotatedRing(q, |t|);
    assert q[|t|..] + q[..|t|] == [head] + t;
  }

  // Anticlockwise, the first becomes the last and the others move up; clockwise, the last becomes the first.
  lemma RotationsMove<T>(s: seq<T>, i: nat)
    requires i < |s|
    ensures |RotatedAnticlockwise(s)| == |RotatedClockwise(s)| == |s|
    ensures RotatedAnticlockwise(s)[i] == s[if i + 1 == |s| then 0 else i + 1]
    ensures RotatedClockwise(s)[i] == s[if i == 0 then |s| - 1 else i - 1]
  {
  }

  lemma RotationsUndoEachOther<T>(s: seq<T>)
    ensures RotatedClockwise(RotatedAnticlockwise(s)) == s
    ensures RotatedAnticlockwise(RotatedClockwise(s)) == s
  {
    ClockwiseUndoes(s);
    AnticlockwiseUndoes(s);
  }

  lemma ClockwiseUndoes<T>(s: seq<T>)
    ensures RotatedClockwise(RotatedAnticlockwise(s)) == s
  {
    if s != [] {
      var a := RotatedAnticlockwise(s);
      assert a[..|s| - 1] == s[1..] && a[|s| - 1] == s[0];
    }
  }

  lemma AnticlockwiseUndoes<T>(s: seq<T>)
    ensures RotatedAnticlockwise(RotatedClockwise(s)) == s
  {
    if s != [] {
      var c := RotatedClockwise(s);
      assert c[1..] == s[..|s| - 1] && c[0] == s[|s| - 1];
    }
  }

  // ----- list_sorted_add -----

  type Compare = (Node, Node) -> int

  // Nothing in s comes after a later node.
  ghost predicate Sorted(compare: Compare, s: seq<Node>) {
    forall i, j | 0 <= i < j < |s| :: compare(s[i], s[j]) <= 0
  }

  // compare is a three-way comparison: reversing the arguments reverses the sign, and it is transitive.
  ghost predicate ThreeWay(compare: Compare, xs: set<Node>) {
    && (forall x, y | x in xs && y in xs :: compare(x, y) <= 0 <==> compare(y, x) >= 0)
    && (forall x, y, z | x in xs && y in xs && z in xs :: compare(x, y) <= 0 && compare(y, z) <= 0 ==> compare(x, z) <= 0)
  }

  // The number of nodes in front of the first one that node must precede.
  function SortedPlace(compare: Compare, s: seq<Node>, node: Node): (i: nat)
    ensures i <= |s|
    ensures forall j | 0 <= j < i :: compare(node, s[j]) >= 0
    ensures i < |s| ==> compare(node, s[i]) < 0
  {
    if s == [] || compare(node, s[0]) < 0 then 0
    else
      var i := SortedPlace(compare, s[1..], node);
      assert forall j | 1 <= j < i + 1 :: s[j] == s[1..][j - 1];
      i + 1
  }

  function SortedInsert(compare: Compare, s: seq<Node>, node: Node): seq<Node> {
    var i := SortedPlace(compare, s, node);
    s[..i] + [node] + s[i..]
  }

  method SortedAdd(head: Node, node: Node, compare: Compare, ghost s: seq<Node>)
    requires ListOf(head, s) && node !in [head] + s
    modifies head, node, s
    ensures ListOf(head, SortedInsert(compare, s, node))
  {
    hide Linked, NoDup, From;
    var newHead, iter := head, head.next;
    ghost var r := [head] + s;
    ghost var i := 0;
    ghost var place := SortedPlace(compare, s, node);
    Neighbours(r, 0);
    HeadIsApart(head, s);
    while iter != head
      invariant 0 <= i <= place && iter == r[After(i, |r|)] && newHead == head
      invariant (i < |s| || iter == head) && Ring(r)
      decreases |s| - i
    {
      assert iter == s[i];
      if compare(node, iter) < 0 {
        newHead := iter;
        break;
      }
      Neighbours(r, i + 1);
      iter := iter.next;
      i := i + 1;
    }
    ghost var k := if place == |s| then 0 else place + 1;
    SeenFrom(r, k);
    assert Ring(From(r,k));
    assert newHead == r[k];
    assert node !in From(r,k);
    Add(newHead, node, From(r, k));
    InsertedInFrontOf(head, node, s, place);
  }

  // Seen from the head, a node put in front of the list's node i, or of the head, is at place i.
  lemma InsertedInFrontOf(head: Node, node: Node, s: seq<Node>, i: nat)
    requires i <= |s|
    requires Ring(From([head] + s, if i == |s| then 0 else i + 1) + [node])
    ensures ListOf(head, s[..i] + [node] + s[i..])
  {
    hide Linked, NoDup, From;
    var r := [head] + s;
    if i == |s| {
      InsertedLast(head, node, s);
    } else {
      var q := From(r, i + 1) + [node];
      FromLength(r, i + 1);
      SeenFrom(q, |s| - i);
      InsertedRotated(head, node, s, i);
    }
  }

  lemma FromLength<T>(r: seq<T>, k: nat)
    requires k < |r|
    ensures |From(r, k)| == |r|
  {
  }

  lemma InsertedLast<T>(head: T, node: T, s: seq<T>)
    ensures From([head] + s, 0) + [node] == [head] + (s[..|s|] + [node] + s[|s|..])
  {
  }

  lemma InsertedRotated<T>(head: T, node: T, s: seq<T>, i: nat)
    requires i < |s|
    ensures From(From([head] + s, i + 1) + [node], |s| - i) == [head] + (s[..i] + [node] + s[i..])
  {
    var r, after, before := [head] + s, s[i..], [head] + s[..i];
    assert r[i + 1..] == after && r[..i + 1] == before;
    var q := after + before + [node];
    assert q[|s| - i..] == before + [node] && q[..|s| - i] == after;
    assert before + [node] + after == [head] + (s[..i] + [node] + s[i..]);
  }

  // The node goes in front of the first one that it must precede; the others keep their order.
  lemma InsertedInPlace(compare: Compare, s: seq<Node>, node: Node)
    ensures var t, i := SortedInsert(compare, s, node), SortedPlace(compare, s, node);
            |t| == |s| + 1 && t[i] == node && t[..i] == s[..i] && t[i + 1..] == s[i..]
            && (forall j | 0 <= j < i :: compare(node, s[j]) >= 0) && (i < |s| ==> compare(node, s[i]) < 0)
  {
  }

  // A sorted list stays sorted, and the new node comes after its equals.
  lemma SortedInsertSorts(compare: Compare, s: seq<Node>, node: Node)
    requires Sorted(compare, s) && ThreeWay(compare, (set x | x in s) + {node})
    ensures Sorted(compare, SortedInsert(compare, s, node))
    ensures forall j | 0 <= j < |s| && compare(s[j], node) == 0 :: j < SortedPlace(compare, s, node)
  {
    var i := SortedPlace(compare, s, node);
    var t, xs := SortedInsert(compare, s, node), (set x | x in s) + {node};
    forall j | 0 <= j < |s|
      ensures if j < i then compare(s[j], node) <= 0 else compare(node, s[j]) <= 0 && compare(s[j], node) > 0
    {
      assert s[j] in xs && node in xs;
      if j >= i {
        NodeBefore(compare, xs, s, i, node, j);
      }
    }
    InsertedSorted(compare, s, i, node);
  }

  lemma InsertedSorted(compare: Compare, s: seq<Node>, i: nat, node: Node)
    requires Sorted(compare, s) && i <= |s|
    requires forall j | 0 <= j < |s| :: if j < i then compare(s[j], node) <= 0 else compare(node, s[j]) <= 0
    ensures Sorted(compare, s[..i] + [node] + s[i..])
  {
    var t := s[..i] + [node] + s[i..];
    forall j, k | 0 <= j < k < |t|
      ensures compare(t[j], t[k]) <= 0
    {
      assert t[j] == if j < i then s[j] else if j == i then node else s[j - 1];
      assert t[k] == if k < i then s[k] else if k == i then node else s[k - 1];
    }
  }

  lemma NodeBefore(compare: Compare, xs: set<Node>, s: seq<Node>, i: nat, node: Node, j: nat)
    requires Sorted(compare, s) && ThreeWay(compare, xs) && (forall x | x in s :: x in xs) && node in xs
    requires i <= j < |s| && compare(node, s[i]) < 0
    ensures compare(node, s[j]) <= 0 && compare(s[j], node) > 0
  {
    var x, y := s[i], s[j];
    assert x in xs && y in xs;
    assert i < j ==> compare(x, y) <= 0;
    assert compare(x, y) <= 0 && compare(y, node) <= 0 ==> compare(x, node) <= 0;
    assert compare(x, node) <= 0 <==> compare(node, x) >= 0;
    assert compare(node, x) <= 0 && compare(x, y) <= 0 ==> compare(node, y) <= 0;
  }
}
