// Powers of two, bits and alignment: the arithmetic behind order_to_size and buddy addresses.
module Powers {

  function Pow2(k: nat): (p: nat)
    ensures p > 0
  {
    if k == 0 then 1 else 2 * Pow2(k - 1)
  }

  // The low k bits of a are zero.
  predicate Aligned(a: nat, k: nat) {
    k == 0 || (a % 2 == 0 && Aligned(a / 2, k - 1))
  }

  // The test `a & (1 << k)`.
  predicate BitSet(a: nat, k: nat) {
    if k == 0 then a % 2 == 1 else BitSet(a / 2, k - 1)
  }

  // Alignment is divisibility.
  lemma {:induction false} AlignedIsMultiple(a: nat, k: nat)
    ensures Aligned(a, k) <==> exists q: nat :: a == q * Pow2(k)
  {
    if k == 0 {
      assert a == a * Pow2(0);
    } else {
      AlignedIsMultiple(a / 2, k - 1);
      MultipleOfTwice(a, k - 1, k);
    }
  }

  lemma MultipleOfTwice(a: nat, j: nat, k: nat)
    requires k == j + 1
    ensures (exists q: nat :: a == q * Pow2(k)) <==> a % 2 == 0 && exists q: nat :: a / 2 == q * Pow2(j)
  {
    hide Pow2;
    if q: nat :| a == q * Pow2(k) {
      TwiceAsMuch(q, k);
    }
    if a % 2 == 0 {
      if q: nat :| a / 2 == q * Pow2(j) {
        TwiceAsMuch(q, k);
      }
    }
  }

  lemma TwiceAsMuch(q: nat, k: nat)
    requires k > 0
    ensures q * Pow2(k) == 2 * (q * Pow2(k - 1))
  {
    MulAssociates(q, 2, Pow2(k - 1));
  }

  lemma Pow2Values()
    ensures Pow2(4) == 16 && Pow2(8) == 256 && Pow2(31) == 0x8000_0000
  {
    Doubled(4);
    Doubled(8);
    Doubled(12);
    Doubled(16);
    Doubled(20);
    Doubled(24);
    Doubled(27);
  }

  lemma Doubled(k: nat)
    ensures Pow2(k + 4) == 16 * Pow2(k) && Pow2(0) == 1 && Pow2(3) == 8 && Pow2(4) == 16
  {
    assert Pow2(k + 2) == 4 * Pow2(k);
  }

  lemma {:induction false} Pow2Monotone(i: nat, j: nat)
    requires i <= j
    ensures Pow2(i) <= Pow2(j)
    ensures i < j ==> 2 * Pow2(i) <= Pow2(j)
    decreases j
  {
    if i < j {
      Pow2Monotone(i, j - 1);
    }
  }

  lemma MulAssociates(x: int, y: int, z: int)
    ensures x * (y * z) == (x * y) * z
  {
  }

  lemma MulAtMost(x: int, y: int, p: nat)
    requires x <= y
    ensures x * p <= y * p
  {
    assert (y - x) * p == y * p - x * p;
  }

  lemma {:induction false} AlignedLess(a: nat, i: nat, j: nat)
    requires i <= j && Aligned(a, j)
    ensures Aligned(a, i)
  {
    if i > 0 {
      AlignedLess(a / 2, i - 1, j - 1);
    }
  }

  lemma {:induction false} NextAligned(a: nat, k: nat)
    requires Aligned(a, k)
    ensures Aligned(a + Pow2(k), k)
  {
    if k > 0 {
      NextAligned(a / 2, k - 1);
      assert (a + Pow2(k)) / 2 == a / 2 + Pow2(k - 1);
    }
  }

  lemma {:induction false} AlignedApart(a: nat, b: nat, k: nat)
    requires Aligned(a, k) && Aligned(b, k) && a < b
    ensures a + Pow2(k) <= b
  {
    if k > 0 {
      AlignedApart(a / 2, b / 2, k - 1);
    }
  }

  // Two aligned blocks that meet are nested: the smaller one ends inside the larger one.
  lemma Nested(a: nat, i: nat, b: nat, j: nat)
    requires i <= j && Aligned(a, i) && Aligned(b, j)
    requires a < b + Pow2(j)
    ensures a + Pow2(i) <= b + Pow2(j)
  {
    NextAligned(b, j);
    AlignedLess(b + Pow2(j), i, j);
    AlignedApart(a, b + Pow2(j), i);
  }

  lemma HalvesAligned(a: nat, k: nat)
    requires Aligned(a, k + 1)
    ensures Aligned(a, k) && Aligned(a + Pow2(k), k)
    ensures !Aligned(a + Pow2(k), k + 1)
  {
    AlignedLess(a, k, k + 1);
    NextAligned(a, k);
    if Aligned(a + Pow2(k), k + 1) {
      AlignedApart(a, a + Pow2(k), k + 1);
    }
  }

  // Bit k says which of two buddies of order k an aligned address is.
  lemma {:induction false} BitDecidesBuddy(a: nat, k: nat)
    requires Aligned(a, k)
    ensures BitSet(a, k) <==> !Aligned(a, k + 1)
    ensures BitSet(a, k) ==> a >= Pow2(k) && Aligned(a - Pow2(k), k + 1)
  {
    if k == 0 {
      assert Aligned(a, 1) <==> a % 2 == 0;
      assert a > 0 ==> (Aligned(a - 1, 1) <==> (a - 1) % 2 == 0);
    } else {
      BitDecidesBuddy(a / 2, k - 1);
      if BitSet(a, k) {
        assert (a - Pow2(k)) / 2 == a / 2 - Pow2(k - 1);
      }
    }
  }
}
