/**
 How the buddy allocator divides its pool: naturally aligned blocks of `2^k` pages,
 each free or in use. Page indices are signed.
 */
module BuddyLayout {
  import opened Radix

  predicate Aligned(a: int, k: nat) {
    a % Pow2(k) == 0
  }

  predicate Covers(s: int, k: nat, p: int) {
    s <= p < s + Pow2(k)
  }

  /** `i ^ (1 << k)`, in two's complement. */
  function BuddyOf(i: int, k: nat): int {
    if (i / Pow2(k)) % 2 == 0 then i + Pow2(k) else i - Pow2(k)
  }

  /**
   `blocks` gives the order of the block at each block start, `start` the block that
   holds each page, and `free` the starts of the free blocks. Reserved pages are blocks
   in use that nobody frees.
   */
  datatype Layout = Layout(lo: int, hi: int, top: nat, blocks: map<int, nat>, start: map<int, int>, free: set<int>)

  ghost predicate BlockOk(y: Layout, s: int)
    requires s in y.blocks
  {
    && y.lo <= s && s + Pow2(y.blocks[s]) <= y.hi
    && Aligned(s, y.blocks[s]) && y.blocks[s] < y.top
    && forall p | Covers(s, y.blocks[s], p) :: p in y.start && y.start[p] == s
  }

  ghost predicate PageOk(y: Layout, p: int) {
    p in y.start && y.start[p] in y.blocks && Covers(y.start[p], y.blocks[y.start[p]], p)
  }

  /** The blocks partition the pool. */
  ghost predicate Partition(y: Layout) {
    && (forall s {:trigger BlockOk(y, s)} | s in y.blocks :: BlockOk(y, s))
    && (forall p {:trigger PageOk(y, p)} | y.lo <= p < y.hi :: PageOk(y, p))
    && y.free <= y.blocks.Keys
  }

  ghost predicate FreeBlock(y: Layout, s: int, k: nat) {
    s in y.free && s in y.blocks && y.blocks[s] == k
  }

  /** No two free buddies coexist below the top order. */
  ghost predicate Coalesced(y: Layout) {
    forall s {:trigger FreeBlock(y, s, y.blocks[s])} | s in y.free && s in y.blocks && y.blocks[s] + 1 < y.top ::
      !FreeBlock(y, BuddyOf(s, y.blocks[s]), y.blocks[s])
  }

  ghost predicate Good(y: Layout) {
    Partition(y) && Coalesced(y)
  }

  predicate FreePage(y: Layout, p: int) {
    p in y.start && y.start[p] in y.free
  }

  // --------------------------------------------------------------- arithmetic

  lemma Mono(x: int, y: int, n: int)
    requires x <= y && n >= 0
    ensures x * n <= y * n
  {
    var d := y - x;
    assert d * n >= 0;
    assert d * n == y * n - x * n;
  }

  /** Multiples of `n` are at least `n` apart. */
  lemma Apart(x: int, y: int, n: int)
    requires n >= 1 && x * n < y * n
    ensures x < y && x * n + n <= y * n
  {
    assert (x + 1) * n == x * n + n;
    if x >= y { Mono(y, x, n); }
    Mono(x + 1, y, n);
  }

  lemma QuotientUnique(k: int, r: int, n: int)
    requires 0 <= r < n
    ensures (k * n + r) / n == k && (k * n + r) % n == r
  {
    var x := k * n + r;
    var q := x / n;
    assert x == q * n + x % n;
    if q * n < k * n {
      Apart(q, k, n);
      assert false;
    } else if k * n < q * n {
      Apart(k, q, n);
      assert false;
    }
    if q != k { SameProduct(q, k, n); }
  }

  lemma SameProduct(a: int, b: int, n: int)
    requires n >= 1 && a * n == b * n
    ensures a == b
  {
    assert (b + 1) * n == b * n + n && (a + 1) * n == a * n + n;
    if a > b { Mono(b + 1, a, n); }
    if b > a { Mono(a + 1, b, n); }
  }

  lemma MultiplesApart(a: int, b: int, k: nat)
    requires Aligned(a, k) && Aligned(b, k) && a < b
    ensures a + Pow2(k) <= b
  {
    hide Pow2;
    var n := Pow2(k);
    assert a == (a / n) * n && b == (b / n) * n;
    Apart(a / n, b / n, n);
  }

  lemma AlignedDown(a: int, big: nat, small: nat)
    requires Aligned(a, big) && small <= big
    ensures Aligned(a, small)
  {
    hide Pow2;
    Pow2Up(small, big);
    var q := a / Pow2(big);
    assert a == q * Pow2(big);
    assert a == (q * Pow2(big - small)) * Pow2(small);
    QuotientUnique(q * Pow2(big - small), 0, Pow2(small));
  }

  lemma NextAligned(a: int, k: nat)
    requires Aligned(a, k)
    ensures Aligned(a + Pow2(k), k)
  {
    hide Pow2;
    var n := Pow2(k);
    assert a + n == (a / n + 1) * n;
    QuotientUnique(a / n + 1, 0, n);
  }

  /** A smaller aligned block that starts inside a larger one lies in it. */
  lemma Nested(a: int, i: nat, b: int, j: nat)
    requires Aligned(a, i) && Aligned(b, j) && i <= j && Covers(b, j, a)
    ensures a + Pow2(i) <= b + Pow2(j)
  {
    hide Pow2, Aligned;
    NextAligned(b, j);
    AlignedDown(b + Pow2(j), j, i);
    MultiplesApart(a, b + Pow2(j), i);
  }

  /** Aligned blocks that share a page are nested, the larger holding the smaller. */
  lemma SharedPage(a: int, i: nat, b: int, j: nat, p: int)
    requires Aligned(a, i) && Aligned(b, j) && i <= j && Covers(a, i, p) && Covers(b, j, p)
    ensures Covers(b, j, a) && a + Pow2(i) <= b + Pow2(j)
  {
    hide Pow2, Aligned;
    AlignedDown(b, j, i);
    if a < b {
      MultiplesApart(a, b, i);
      assert false;
    }
    Nested(a, i, b, j);
  }

  lemma BuddyFacts(i: int, k: nat)
    requires Aligned(i, k)
    ensures Aligned(BuddyOf(i, k), k) && BuddyOf(BuddyOf(i, k), k) == i
    ensures BuddyOf(i, k) == i + Pow2(k) ==> Aligned(i, k + 1)
    ensures BuddyOf(i, k) == i - Pow2(k) ==> Aligned(i - Pow2(k), k + 1)
    ensures BuddyOf(i, k) == i + Pow2(k) || BuddyOf(i, k) == i - Pow2(k)
    ensures Pow2(k + 1) == 2 * Pow2(k)
  {
    var p := Pow2(k);
    var q := i / p;
    assert i == q * p;
    if q % 2 == 0 {
      Twice(q / 2, i, p);
      HalfFacts(i, k);
    } else {
      Twice((q - 1) / 2, i - p, p);
      HalfFacts(i - p, k);
    }
  }

  lemma Twice(h: int, i: int, p: nat)
    requires p >= 1 && i == (2 * h) * p
    ensures i % (2 * p) == 0
  {
    assert i == h * (2 * p);
    QuotientUnique(h, 0, 2 * p);
  }

  lemma HalfFacts(i: int, k: nat)
    requires Aligned(i, k + 1)
    ensures Aligned(i, k) && Aligned(i + Pow2(k), k) && BuddyOf(i, k) == i + Pow2(k) && BuddyOf(i + Pow2(k), k) == i
    ensures Pow2(k + 1) == 2 * Pow2(k)
  {
    var p := Pow2(k);
    var q := i / (2 * p);
    assert i == q * (2 * p);
    assert i == (2 * q) * p;
    QuotientUnique(2 * q, 0, p);
    assert i + p == (2 * q + 1) * p;
    QuotientUnique(2 * q + 1, 0, p);
  }

  // ------------------------------------------------------------ what is where

  lemma StartOf(y: Layout, p: int)
    requires Partition(y) && y.lo <= p < y.hi
    ensures PageOk(y, p) && BlockOk(y, y.start[p])
  {
    assert PageOk(y, p);
  }

  /** Two different blocks share no page. */
  lemma BlocksApart(y: Layout, s: int, t: int, p: int)
    requires Partition(y) && s in y.blocks && t in y.blocks && Covers(s, y.blocks[s], p) && Covers(t, y.blocks[t], p)
    ensures s == t
  {
    assert BlockOk(y, s) && BlockOk(y, t);
  }

  /** A page aligned like block `s`, in a block no larger than it, is the start of its block. */
  lemma AlignedStart(y: Layout, p: int, k: nat)
    requires Partition(y) && y.lo <= p < y.hi && Aligned(p, k)
    ensures p in y.start && y.start[p] in y.blocks
    ensures y.blocks[y.start[p]] <= k ==> y.start[p] == p
    ensures y.blocks[y.start[p]] > k ==>
            Covers(y.start[p], y.blocks[y.start[p]], p) && p + Pow2(k) <= y.start[p] + Pow2(y.blocks[y.start[p]])
  {
    hide Pow2, Aligned;
    StartOf(y, p);
    var s := y.start[p];
    var j := y.blocks[s];
    if j <= k {
      AlignedDown(p, k, j);
      if s < p { MultiplesApart(s, p, j); }
    } else {
      Nested(p, k, s, j);
    }
  }

  /**
   The page that `free` takes for the buddy is the start of a block no larger than the
   freed one, so its order and tag are current: stale tags inside blocks are never read.
   */
  lemma BuddyIsStart(y: Layout, b: int)
    requires Partition(y) && b in y.blocks
    requires y.lo <= BuddyOf(b, y.blocks[b]) < y.hi
    ensures BuddyOf(b, y.blocks[b]) in y.blocks && y.blocks[BuddyOf(b, y.blocks[b])] <= y.blocks[b]
    ensures BuddyOf(b, y.blocks[b]) != b
  {
    hide Pow2, Aligned, BuddyOf;
    var k := y.blocks[b];
    assert BlockOk(y, b);
    BuddyFacts(b, k);
    var c := BuddyOf(b, k);
    AlignedStart(y, c, k);
    var s := y.start[c];
    var j := y.blocks[s];
    StartOf(y, c);
    if j > k {
      var m := if c < b then c else b;
      SharedPage(m, k + 1, s, j, c);
      BlocksApart(y, s, b, b);
      assert false;
    }
  }

  // ------------------------------------------------------- coalesced is canonical

  /** An aligned run of `2^k` free pages of the pool. */
  ghost predicate FreeRun(y: Layout, b: int, k: nat) {
    Aligned(b, k) && y.lo <= b && b + Pow2(k) <= y.hi && forall p | Covers(b, k, p) :: FreePage(y, p)
  }

  /** Some free block holds the aligned region `(b, k)`. */
  ghost predicate HeldFree(y: Layout, b: int, k: nat) {
    && b in y.start && y.start[b] in y.blocks && FreeBlock(y, y.start[b], y.blocks[y.start[b]])
    && k <= y.blocks[y.start[b]] < y.top
    && y.start[b] <= b && b + Pow2(k) <= y.start[b] + Pow2(y.blocks[y.start[b]])
  }

  /** Without free buddies, every free run lies in a single free block. */
  lemma {:induction false} RunIsHeld(y: Layout, b: int, k: nat)
    requires Good(y) && k < y.top && FreeRun(y, b, k)
    ensures HeldFree(y, b, k)
    decreases k
  {
    hide Pow2, Aligned, BuddyOf;
    StartOf(y, b);
    if k == 0 {
      Pow2Zero();
      assert Covers(b, 0, b);
    } else {
      HalfFacts(b, k - 1);
      var c := b + Pow2(k - 1);
      RunIsHeld(y, b, k - 1);
      RunIsHeld(y, c, k - 1);
      StartOf(y, c);
      HalvesHeld(y, b, k);
    }
  }

  lemma Pow2Zero()
    ensures Pow2(0) == 1
  {
  }

  lemma NoFreePair(y: Layout, s: int, k: nat)
    requires Good(y) && FreeBlock(y, s, k) && k + 1 < y.top
    ensures !FreeBlock(y, BuddyOf(s, k), k)
  {
  }

  lemma HalvesHeld(y: Layout, b: int, k: nat)
    requires Good(y) && 0 < k < y.top && FreeRun(y, b, k)
    requires HeldFree(y, b, k - 1) && HeldFree(y, b + Pow2(k - 1), k - 1)
    ensures HeldFree(y, b, k)
  {
    hide Pow2, Aligned, BuddyOf;
    HalfFacts(b, k - 1);
    var c := b + Pow2(k - 1);
    var s, t := y.start[b], y.start[c];
    var i, j := y.blocks[s], y.blocks[t];
    StartOf(y, b);
    StartOf(y, c);
    if i >= k {
      SharedPage(b, k, s, i, b);
    } else {
      AlignedStart(y, b, k - 1);
      AlignedStart(y, c, k - 1);
      if j >= k {
        SharedPage(b, k, t, j, c);
        BlocksApart(y, s, t, b);
      }
      NoFreePair(y, b, k - 1);
    }
  }

  /** A free block is a free run. */
  lemma BlockIsRun(y: Layout, s: int, k: nat)
    requires Partition(y) && FreeBlock(y, s, k)
    ensures FreeRun(y, s, k) && k < y.top
  {
    assert BlockOk(y, s);
  }

  /** The free blocks are a function of the free pages. */
  lemma FreeBlocksDetermined(y: Layout, z: Layout, s: int, k: nat)
    requires Good(y) && Good(z) && y.lo == z.lo && y.hi == z.hi && y.top == z.top
    requires forall p | y.lo <= p < y.hi :: FreePage(y, p) <==> FreePage(z, p)
    requires FreeBlock(y, s, k)
    ensures FreeBlock(z, s, k)
  {
    hide Pow2, Aligned, Coalesced;
    BlockIsRun(y, s, k);
    RunIsHeld(z, s, k);
    var t := z.start[s];
    var j := z.blocks[t];
    BlockIsRun(z, t, j);
    RunIsHeld(y, t, j);
    var u := y.start[t];
    assert Covers(u, y.blocks[u], s);
    assert Covers(s, k, s);
    BlocksApart(y, u, s, s);
  }

  /** A free run of an order exists exactly if a free block of at least that order does. */
  lemma RunIffBlock(y: Layout, k: nat)
    requires Good(y) && k < y.top
    ensures (exists b :: FreeRun(y, b, k)) <==> (exists s, j :: k <= j && FreeBlock(y, s, j))
  {
    if b :| FreeRun(y, b, k) {
      RunIsHeld(y, b, k);
      assert FreeBlock(y, y.start[b], y.blocks[y.start[b]]);
    }
    if s, j :| k <= j && FreeBlock(y, s, j) {
      BlockIsRun(y, s, j);
      AlignedDown(s, j, k);
      Pow2Up(k, j);
      assert FreeRun(y, s, k);
    }
  }

  // --------------------------------------------------------------- operations

  function Retag(start: map<int, int>, s: int, k: nat): map<int, int> {
    map p | p in start :: if Covers(s, k, p) then s else start[p]
  }

  /** Join block `b`, in use, with its buddy into one block in use. */
  function Merge(y: Layout, b: int): Layout
    requires b in y.blocks
  {
    var k := y.blocks[b];
    var c := BuddyOf(b, k);
    var m := if c < b then c else b;
    y.(blocks := (y.blocks - {b, c})[m := k + 1], start := Retag(y.start, m, k + 1), free := y.free - {c})
  }

  /** Split block `s`, in use, into a left half in use and a free right half. */
  function Split(y: Layout, s: int): Layout
    requires s in y.blocks && y.blocks[s] > 0
  {
    var k := y.blocks[s] - 1;
    var c := s + Pow2(k);
    y.(blocks := y.blocks[s := k][c := k], start := Retag(y.start, c, k), free := y.free + {c})
  }

  function Take(y: Layout, s: int): Layout {
    y.(free := y.free - {s})
  }

  function Put(y: Layout, s: int): Layout {
    y.(free := y.free + {s})
  }

  lemma TakeGood(y: Layout, s: int)
    requires Good(y)
    ensures Good(Take(y, s))
  {
    var z := Take(y, s);
    forall t | t in z.blocks ensures BlockOk(z, t) { assert BlockOk(y, t); }
    forall p | z.lo <= p < z.hi ensures PageOk(z, p) { assert PageOk(y, p); }
    forall t | t in z.free && t in z.blocks && z.blocks[t] + 1 < z.top
      ensures !FreeBlock(z, BuddyOf(t, z.blocks[t]), z.blocks[t])
    {
      assert FreeBlock(y, t, y.blocks[t]);
    }
  }

  /** A block may become free if its buddy is not free at the same order. */
  lemma PutGood(y: Layout, s: int)
    requires Good(y) && s in y.blocks
    requires y.blocks[s] + 1 < y.top ==> !FreeBlock(y, BuddyOf(s, y.blocks[s]), y.blocks[s])
    ensures Good(Put(y, s))
  {
    hide Pow2, Aligned, BuddyOf;
    var z := Put(y, s);
    forall t | t in z.blocks ensures BlockOk(z, t) { assert BlockOk(y, t); }
    forall p | z.lo <= p < z.hi ensures PageOk(z, p) { assert PageOk(y, p); }
    forall t | t in z.free && t in z.blocks && z.blocks[t] + 1 < z.top
      ensures !FreeBlock(z, BuddyOf(t, z.blocks[t]), z.blocks[t])
    {
      assert BlockOk(y, t);
      BuddyFacts(t, z.blocks[t]);
      BuddyFacts(s, y.blocks[s]) by { assert BlockOk(y, s); }
      if t != s { assert FreeBlock(y, t, y.blocks[t]); }
      BuddyApart(t, y.blocks[t]);
    }
  }

  lemma BuddyApart(i: int, k: nat)
    ensures BuddyOf(i, k) != i
  {
  }

  lemma RetagOutside(y: Layout, m: int, k: nat, s: int)
    requires Partition(y) && s in y.blocks
    requires forall p | Covers(s, y.blocks[s], p) :: !Covers(m, k, p)
    ensures forall p | Covers(s, y.blocks[s], p) :: p in Retag(y.start, m, k) && Retag(y.start, m, k)[p] == s
  {
    assert BlockOk(y, s);
  }

  /** Merging keeps a good layout good. */
  lemma MergeGood(y: Layout, b: int)
    requires Good(y) && b in y.blocks && b !in y.free && y.blocks[b] + 1 < y.top
    requires FreeBlock(y, BuddyOf(b, y.blocks[b]), y.blocks[b])
    ensures Good(Merge(y, b))
  {
    hide Pow2, Aligned, BuddyOf;
    var k := y.blocks[b];
    var c := BuddyOf(b, k);
    var m := if c < b then c else b;
    var z := Merge(y, b);
    assert BlockOk(y, b) && BlockOk(y, c);
    BuddyFacts(b, k);
    forall p ensures Covers(m, k + 1, p) <==> Covers(b, k, p) || Covers(c, k, p) { }
    forall s | s in z.blocks
      ensures BlockOk(z, s)
    {
      if s != m {
        assert BlockOk(y, s);
        forall p | Covers(s, y.blocks[s], p) ensures !Covers(m, k + 1, p) {
          if Covers(b, k, p) { BlocksApart(y, s, b, p); } else if Covers(c, k, p) { BlocksApart(y, s, c, p); }
        }
        RetagOutside(y, m, k + 1, s);
      }
    }
    forall p | z.lo <= p < z.hi
      ensures PageOk(z, p)
    {
      StartOf(y, p);
    }
    forall t | t in z.free && t in z.blocks && z.blocks[t] + 1 < z.top
      ensures !FreeBlock(z, BuddyOf(t, z.blocks[t]), z.blocks[t])
    {
      NoFreePair(y, t, y.blocks[t]);
    }
  }

  lemma MergePages(y: Layout, b: int, p: int)
    requires y.lo <= p < y.hi
    requires Good(y) && b in y.blocks && b !in y.free && y.blocks[b] + 1 < y.top
    requires FreeBlock(y, BuddyOf(b, y.blocks[b]), y.blocks[b])
    ensures var z := Merge(y, b); var m := if BuddyOf(b, y.blocks[b]) < b then BuddyOf(b, y.blocks[b]) else b;
            && m in z.blocks && z.blocks[m] == y.blocks[b] + 1 && m !in z.free
            && (FreePage(z, p) || Covers(m, z.blocks[m], p) <==> FreePage(y, p) || Covers(b, y.blocks[b], p))
  {
    hide Pow2, Aligned, BuddyOf;
    var k := y.blocks[b];
    var c := BuddyOf(b, k);
    assert BlockOk(y, b) && BlockOk(y, c);
    BuddyFacts(b, k);
    StartOf(y, p);
  }

  /** Splitting keeps a good layout good. */
  lemma SplitGood(y: Layout, s: int)
    requires Good(y) && s in y.blocks && s !in y.free && y.blocks[s] > 0
    ensures Good(Split(y, s))
  {
    hide Pow2, Aligned, BuddyOf;
    var k := y.blocks[s] - 1;
    var c := s + Pow2(k);
    var z := Split(y, s);
    assert BlockOk(y, s);
    HalfFacts(s, k);
    forall t | t in z.blocks
      ensures BlockOk(z, t)
    {
      if t != s && t != c {
        assert BlockOk(y, t);
        forall p | Covers(t, y.blocks[t], p) ensures !Covers(c, k, p) {
          if Covers(s, k + 1, p) { BlocksApart(y, s, t, p); }
        }
        RetagOutside(y, c, k, t);
      }
    }
    forall p | z.lo <= p < z.hi
      ensures PageOk(z, p)
    {
      StartOf(y, p);
      SplitOldStart(y, s, y.start[p]);
    }
    forall t | t in z.free && t in z.blocks && z.blocks[t] + 1 < z.top
      ensures !FreeBlock(z, BuddyOf(t, z.blocks[t]), z.blocks[t])
    {
      if t != c {
        SplitOldStart(y, s, t);
        NoFreePair(y, t, y.blocks[t]);
        assert BlockOk(y, t);
        BuddyFacts(t, y.blocks[t]);
      }
    }
  }

  /** The right half was inside the block, so it was not the start of another one. */
  lemma SplitOldStart(y: Layout, s: int, t: int)
    requires Partition(y) && s in y.blocks && y.blocks[s] > 0 && t in y.blocks
    ensures t != s + Pow2(y.blocks[s] - 1)
  {
    assert BlockOk(y, s) && BlockOk(y, t);
    if t == s + Pow2(y.blocks[s] - 1) { BlocksApart(y, s, t, t); }
  }

  lemma SplitPages(y: Layout, s: int, p: int)
    requires y.lo <= p < y.hi
    requires Good(y) && s in y.blocks && s !in y.free && y.blocks[s] > 0
    ensures var z := Split(y, s);
            && s in z.blocks && z.blocks[s] == y.blocks[s] - 1 && s !in z.free
            && (FreePage(z, p) || Covers(s, z.blocks[s], p) <==> FreePage(y, p) || Covers(s, y.blocks[s], p))
  {
    var k := y.blocks[s] - 1;
    assert BlockOk(y, s);
    SplitOldStart(y, s, s);
    StartOf(y, p);
    SplitOldStart(y, s, y.start[p]);
  }
}
