/**
 Address arithmetic of a radix page table with 4 KiB pages and nine index bits
 per level. `Block(l, v)` is `v >> (12 + 9 * l)` and `Offset(l, v)` is the rest.
 Products with `Span(l)` are written `Scale(i, l)`, a shift left by `12 + 9 * l`.
 */
module Radix {

  function Pow2(n: nat): (r: nat)
    ensures r >= 1
  {
    if n == 0 then 1 else 2 * Pow2(n - 1)
  }

  /** Bytes covered by one entry at level `l`. */
  function Span(l: nat): (r: nat)
    ensures r >= 4096
  {
    if l == 0 then 4096 else 512 * Span(l - 1)
  }

  /** `i << (12 + 9 * l)`. */
  function Scale(i: nat, l: nat): nat
    decreases i
  {
    if i == 0 then 0 else Scale(i - 1, l) + Span(l)
  }

  /** Number of the entry-sized block at level `l` that holds address `v`. */
  function Block(l: nat, v: nat): nat {
    if l == 0 then v / 4096 else Block(l - 1, v) / 512
  }

  /** Position of `v` inside its block. */
  function Offset(l: nat, v: nat): nat {
    if l == 0 then v % 4096 else Offset(l - 1, v) + Scale(Block(l - 1, v) % 512, l - 1)
  }

  /** Index into a table of level `l`. */
  function Index(l: nat, v: nat): (i: nat)
    ensures i < 512
  {
    Block(l, v) % 512
  }

  // ------------------------------------------------------------- powers of two

  lemma {:induction false} Pow2Sum(a: nat, b: nat)
    ensures Pow2(a + b) == Pow2(a) * Pow2(b)
  {
    if a > 0 {
      Pow2Sum(a - 1, b);
      assert Pow2(a + b) == 2 * (Pow2(a - 1) * Pow2(b));
    }
  }

  lemma Pow2Nine()
    ensures Pow2(9) == 512 && Pow2(12) == 4096
  {
    assert Pow2(3) == 8;
    Pow2Sum(3, 3);
    Pow2Sum(3, 6);
    Pow2Sum(3, 9);
  }

  lemma Pow2Up(a: nat, b: nat)
    requires a <= b
    ensures Pow2(a) <= Pow2(b)
    ensures Pow2(b) % Pow2(a) == 0
    ensures Pow2(b) == Pow2(b - a) * Pow2(a)
  {
    Pow2Sum(b - a, a);
    DivModUnique(Pow2(b - a), 0, Pow2(a));
    MulMono(1, Pow2(b - a), Pow2(a));
  }

  lemma MulMono(a: nat, b: nat, s: nat)
    requires a <= b
    ensures a * s <= b * s
  {
    assert (b - a) * s == b * s - a * s;
  }

  lemma DivModUnique(k: nat, r: nat, n: nat)
    requires r < n
    ensures (k * n + r) / n == k
    ensures (k * n + r) % n == r
  {
    var x := k * n + r;
    var q := x / n;
    assert x == q * n + x % n;
    if q < k {
      assert (q + 1) * n == q * n + n;
      MulMono(q + 1, k, n);
      assert false;
    } else if q > k {
      assert (k + 1) * n == k * n + n;
      MulMono(k + 1, q, n);
      assert false;
    }
  }

  // --------------------------------------------------------- shifts and blocks

  lemma {:induction false} ScaleIsProduct(i: nat, l: nat)
    ensures Scale(i, l) == i * Span(l)
  {
    if i > 0 {
      ScaleIsProduct(i - 1, l);
      assert i * Span(l) == (i - 1) * Span(l) + Span(l);
    }
  }

  lemma {:induction false} ScaleSum(i: nat, j: nat, l: nat)
    ensures Scale(i + j, l) == Scale(i, l) + Scale(j, l)
  {
    if j > 0 { ScaleSum(i, j - 1, l); }
  }

  lemma ScaleMono(i: nat, j: nat, l: nat)
    requires i <= j
    ensures Scale(i, l) <= Scale(j, l)
    ensures i < j ==> Scale(i, l) + Span(l) <= Scale(j, l)
  {
    ScaleSum(i, j - i, l);
  }

  lemma ScaleUp(i: nat, l: nat)
    ensures Scale(512 * i, l) == Scale(i, l + 1)
  {
    ScaleIsProduct(512 * i, l);
    ScaleIsProduct(i, l + 1);
    assert (512 * i) * Span(l) == i * (512 * Span(l));
  }

  /** Twelve page bits and nine bits per level: the two ways to count bytes agree. */
  lemma {:induction false} SpanIsPow2(l: nat)
    ensures Span(l) == Pow2(12 + 9 * l)
  {
    Pow2Nine();
    if l > 0 {
      SpanIsPow2(l - 1);
      Pow2Sum(9, 12 + 9 * (l - 1));
    }
  }

  lemma ScaleBound(i: nat, l: nat)
    requires i < 512
    ensures Scale(i, l) + Span(l) <= Span(l + 1)
  {
    ScaleMono(i, 512, l);
    ScaleUp(1, l);
  }

  /** Every address is its block's base plus its offset. */
  lemma {:induction false} Recompose(l: nat, v: nat)
    ensures v == Scale(Block(l, v), l) + Offset(l, v)
    ensures Offset(l, v) < Span(l)
  {
    if l == 0 {
      ScaleIsProduct(Block(0, v), 0);
    } else {
      Recompose(l - 1, v);
      var b := Block(l - 1, v);
      var q, i := b / 512, b % 512;
      ScaleSum(512 * q, i, l - 1);
      ScaleUp(q, l - 1);
      ScaleBound(i, l - 1);
    }
  }

  /** Adding whole blocks moves the block number and keeps the offset. */
  lemma {:induction false} Shift(l: nat, v: nat, i: nat)
    ensures Block(l, v + Scale(i, l)) == Block(l, v) + i
    ensures Offset(l, v + Scale(i, l)) == Offset(l, v)
  {
    if l == 0 {
      ScaleIsProduct(i, 0);
    } else {
      ScaleUp(i, l - 1);
      Shift(l - 1, v, 512 * i);
    }
  }

  lemma {:induction false} ZeroBlock(l: nat)
    ensures Block(l, 0) == 0 && Offset(l, 0) == 0
  {
    if l > 0 { ZeroBlock(l - 1); }
  }

  /** Base of a block. */
  lemma BaseOf(l: nat, b: nat)
    ensures Block(l, Scale(b, l)) == b
    ensures Offset(l, Scale(b, l)) == 0
  {
    Shift(l, 0, b);
    ZeroBlock(l);
  }

  /** Runs of blocks are exactly intervals of addresses. */
  lemma BlockRange(l: nat, v: nat, b: nat, n: nat)
    ensures b <= Block(l, v) < b + n <==> Scale(b, l) <= v < Scale(b + n, l)
  {
    Recompose(l, v);
    var c := Block(l, v);
    if c < b {
      ScaleMono(c, b, l);
    } else {
      ScaleMono(b, c, l);
      if c < b + n { ScaleMono(c, b + n, l); } else { ScaleMono(b + n, c, l); }
    }
  }

  /** An address below the reach of `levels` levels belongs to the only root block. */
  lemma RootBlock(levels: nat, v: nat)
    ensures v < Span(levels) <==> Block(levels, v) == 0
  {
    BlockRange(levels, v, 0, 1);
  }

  /** `x >> (9 * n)`, on block numbers. */
  function Up(x: nat, n: nat): nat
    decreases n
  {
    if n == 0 then x else Up(x / 512, n - 1)
  }

  lemma {:induction false} UpAfter(x: nat, n: nat)
    ensures Up(x, n + 1) == Up(x, n) / 512
    decreases n
  {
    if n > 0 { UpAfter(x / 512, n - 1); }
  }

  lemma {:induction false} BlockUp(l: nat, n: nat, v: nat)
    ensures Block(l + n, v) == Up(Block(l, v), n)
  {
    if n > 0 {
      BlockUp(l, n - 1, v);
      UpAfter(Block(l, v), n - 1);
    }
  }

  /** Addresses of one block share every larger block. */
  lemma SameBlockUp(l: nat, k: nat, v: nat, w: nat)
    requires l <= k
    requires Block(l, v) == Block(l, w)
    ensures Block(k, v) == Block(k, w)
  {
    BlockUp(l, k - l, v);
    BlockUp(l, k - l, w);
  }
}
