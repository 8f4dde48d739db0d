/** Bit operations on machine words, as natural numbers. */
module Bits {
  import opened Radix

  function Min(a: nat, b: nat): nat { if a < b then a else b }

  function Max(a: nat, b: nat): nat { if a > b then a else b }

  /** Bitwise or. */
  function Or(a: nat, b: nat): nat
    decreases a + b
  {
    if a == 0 then b else if b == 0 then a
    else (if a % 2 == 1 || b % 2 == 1 then 1 else 0) + 2 * Or(a / 2, b / 2)
  }

  /** Bitwise exclusive or. */
  function Xor(a: nat, b: nat): nat
    decreases a + b
  {
    if a == 0 then b else if b == 0 then a
    else (if a % 2 != b % 2 then 1 else 0) + 2 * Xor(a / 2, b / 2)
  }

  /** Position of the highest set bit. */
  function BitScanReverse(n: nat): (r: nat)
    requires n > 0
    ensures Pow2(r) <= n < 2 * Pow2(r)
  {
    if n == 1 then 0 else 1 + BitScanReverse(n / 2)
  }

  /** Position of the lowest set bit. */
  function BitScanForward(n: nat): (r: nat)
    requires n > 0
    ensures n % Pow2(r) == 0
  {
    if n % 2 == 1 then 0
    else
      var r := BitScanForward(n / 2);
      EvenMultiple(n, Pow2(r));
      1 + r
  }

  /** The order of the largest naturally aligned block at `base` within `size` bytes. */
  function MaxOrder(base: nat, size: nat): nat
    requires size > 0
  {
    if base == 0 then BitScanReverse(size) else Min(BitScanForward(base), BitScanReverse(size))
  }

  predicate AlignedBy(a: nat, order: nat) {
    a % Pow2(order) == 0
  }

  lemma EvenMultiple(n: nat, p: nat)
    requires p >= 1 && n % 2 == 0 && (n / 2) % p == 0
    ensures n % (2 * p) == 0
  {
    var k := (n / 2) / p;
    assert n / 2 == k * p;
    assert n == k * (2 * p);
    DivModUnique(k, 0, 2 * p);
  }

  lemma HalfMultiple(n: nat, p: nat)
    requires p >= 1 && n % (2 * p) == 0
    ensures n % 2 == 0 && (n / 2) % p == 0
  {
    var k := n / (2 * p);
    assert n == k * (2 * p);
    assert n == 2 * (k * p);
    DivModUnique(k, 0, p);
  }

  lemma AlignedDown(a: nat, big: nat, small: nat)
    requires AlignedBy(a, big) && small <= big
    ensures AlignedBy(a, small)
  {
    hide Pow2;
    var k := a / Pow2(big);
    assert a == k * Pow2(big);
    Pow2Up(small, big);
    assert a == (k * Pow2(big - small)) * Pow2(small);
    DivModUnique(k * Pow2(big - small), 0, Pow2(small));
  }

  lemma AlignedSum(a: nat, b: nat, order: nat)
    requires AlignedBy(a, order) && AlignedBy(b, order)
    ensures AlignedBy(a + b, order)
    ensures a >= b ==> AlignedBy(a - b, order)
  {
    hide Pow2;
    var p := Pow2(order);
    var i, j := a / p, b / p;
    assert a == i * p && b == j * p;
    assert a + b == (i + j) * p;
    DivModUnique(i + j, 0, p);
    if a >= b {
      if i < j { MulMono(i + 1, j, p); assert false; }
      assert a - b == (i - j) * p;
      DivModUnique(i - j, 0, p);
    }
  }

  /** Every order up to the lowest set bit is an alignment, and no other. */
  lemma {:induction false} ForwardIsAlignment(n: nat, order: nat)
    requires n > 0
    ensures AlignedBy(n, order) <==> order <= BitScanForward(n)
  {
    if order == 0 {
    } else if n % 2 == 1 {
      if AlignedBy(n, order) {
        HalfMultiple(n, Pow2(order - 1));
        assert false;
      }
    } else {
      ForwardIsAlignment(n / 2, order - 1);
      if AlignedBy(n, order) { HalfMultiple(n, Pow2(order - 1)); }
      if AlignedBy(n / 2, order - 1) { EvenMultiple(n, Pow2(order - 1)); }
    }
  }

  /** Exclusive or above bit `k` compares block numbers. */
  lemma {:induction false} XorBlocks(a: nat, b: nat, k: nat)
    ensures Xor(a, b) / Pow2(k) == 0 <==> a / Pow2(k) == b / Pow2(k)
    decreases k
  {
    if k == 0 {
      XorZero(a, b);
    } else if a == 0 || b == 0 {
      assert 0 / Pow2(k) == 0;
    } else {
      XorBlocks(a / 2, b / 2, k - 1);
      HalfDiv(a, Pow2(k - 1));
      HalfDiv(b, Pow2(k - 1));
      HalfDiv(Xor(a, b), Pow2(k - 1));
      assert Xor(a, b) / 2 == Xor(a / 2, b / 2);
    }
  }

  lemma {:induction false} XorZero(a: nat, b: nat)
    ensures Xor(a, b) == 0 <==> a == b
    decreases a + b
  {
    if a > 0 && b > 0 { XorZero(a / 2, b / 2); }
  }

  lemma HalfDiv(n: nat, p: nat)
    requires p >= 1
    ensures n / (2 * p) == (n / 2) / p
  {
    var h := n / 2;
    var q, r := h / p, h % p;
    assert h == q * p + r;
    assert n == q * (2 * p) + (2 * r + n % 2) by {
      assert n == 2 * h + n % 2;
      assert 2 * (q * p) == q * (2 * p);
    }
    DivModUnique(q, 2 * r + n % 2, 2 * p);
  }

  /** Or-ing the base of an enclosing aligned block into an address changes nothing. */
  lemma {:induction false} OrBase(a: nat, r: nat, k: nat)
    requires AlignedBy(a, k) && r < Pow2(k)
    ensures Or(a + r, a) == a + r && Or(a, a + r) == a + r
    decreases k, a
  {
    if a == 0 {
    } else if k == 0 {
      OrSelf(a);
    } else {
      HalfMultiple(a, Pow2(k - 1));
      OrBase(a / 2, r / 2, k - 1);
      assert (a + r) / 2 == a / 2 + r / 2;
    }
  }

  lemma {:induction false} OrAtLeast(a: nat, b: nat)
    ensures a <= Or(a, b)
    decreases a + b
  {
    if a > 0 && b > 0 { OrAtLeast(a / 2, b / 2); }
  }

  lemma {:induction false} OrSelf(a: nat)
    ensures Or(a, a) == a
  {
    if a > 0 { OrSelf(a / 2); }
  }

  lemma SameBlock(a: nat, b: nat, j: nat)
    requires AlignedBy(b, j)
    ensures a / Pow2(j) == b / Pow2(j) <==> b <= a < b + Pow2(j)
  {
    hide Pow2;
    var q := Pow2(j);
    assert b == (b / q) * q;
    DivRange(a, q, b / q);
  }

  /** Two naturally aligned blocks are nested or apart. */
  lemma Nested(a: nat, i: nat, b: nat, j: nat)
    requires AlignedBy(a, i) && AlignedBy(b, j) && i <= j
    ensures a < b ==> a + Pow2(i) <= b
    ensures b <= a < b + Pow2(j) ==> a + Pow2(i) <= b + Pow2(j)
  {
    hide Pow2;
    if a < b {
      BlockEnd(a, b, i, j);
    } else if a < b + Pow2(j) {
      NextAligned(b, j);
      BlockEnd(a, b + Pow2(j), i, j);
    }
  }

  lemma NextAligned(b: nat, j: nat)
    requires AlignedBy(b, j)
    ensures AlignedBy(b + Pow2(j), j)
  {
    hide Pow2;
    var q := Pow2(j);
    assert b + q == (b / q + 1) * q;
    DivModUnique(b / q + 1, 0, q);
  }

  lemma DivRange(a: nat, q: nat, m: nat)
    requires q >= 1
    ensures a / q == m <==> m * q <= a < m * q + q
  {
    assert a == (a / q) * q + a % q;
    if m * q <= a < m * q + q {
      DivModUnique(m, a - m * q, q);
    }
  }

  /** A block that starts before an aligned bound ends by it. */
  lemma BlockEnd(a: nat, bound: nat, i: nat, j: nat)
    requires AlignedBy(a, i) && AlignedBy(bound, j) && i <= j && a < bound
    ensures a + Pow2(i) <= bound
  {
    AlignedDown(bound, j, i);
    var p := Pow2(i);
    var x, y := a / p, bound / p;
    assert a == x * p && bound == y * p;
    if x >= y { MulMono(y, x, p); }
    MulMono(x + 1, y, p);
    assert (x + 1) * p == x * p + p;
  }

  lemma {:induction false} Pow2Order(a: nat, b: nat)
    ensures Pow2(a) <= Pow2(b) <==> a <= b
  {
    if a > 0 && b > 0 { Pow2Order(a - 1, b - 1); }
  }

  lemma Pow2One()
    ensures Pow2(1) == 2
  {
  }

  /** The highest set bit of a positive multiple of `2^k` is `k` or above. */
  lemma ReverseOfMultiple(n: nat, k: nat)
    requires n > 0 && AlignedBy(n, k)
    ensures k <= BitScanReverse(n)
  {
    hide Pow2;
    var q := n / Pow2(k);
    assert n == q * Pow2(k);
    MulMono(1, q, Pow2(k));
    var r := BitScanReverse(n);
    Pow2Sum(1, r);
    Pow2Order(r + 1, k);
    assert Pow2(1) == 2 by { Pow2One(); }
  }
}
