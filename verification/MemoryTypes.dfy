/** Memory types from the MTRRs: which type an address has, and how far that type extends. */
module MemoryTypes {
  import opened Radix
  import opened Bits

  /** A valid variable-range MTRR, as read: base with the type in its low byte, and mask. */
  datatype Mtrr = Mtrr(base: nat, mask: nat)

  /** The variable MTRRs, the default type, and the words of the fixed-range MTRRs. */
  datatype State = State(vars: seq<Mtrr>, fallback: nat, fix64k: nat, fix16k: seq<nat>, fix4k: seq<nat>)

  const NO_TYPE: nat := 0xffff_ffff
  const NO_NEXT: nat := 0xffff_ffff_ffff_ffff

  /** Bitwise and. */
  function And(a: nat, b: nat): nat
    decreases a
  {
    if a == 0 || b == 0 then 0 else (a % 2) * (b % 2) + 2 * And(a / 2, b / 2)
  }

  /** The base without the bits below the page. */
  function Start(m: Mtrr): nat {
    m.base - m.base % 4096
  }

  function Size(m: Mtrr): nat {
    if m.mask / 4096 == 0 then 0 else Pow2(BitScanForward(m.mask / 4096) + 12)
  }

  function TypeOf(m: Mtrr): nat {
    m.base % 256
  }

  /** The hardware's test: base and address agree in all bits of the mask. */
  predicate Matches(m: Mtrr, phys: nat) {
    And(Xor(phys, m.base), m.mask) / 4096 == 0
  }

  /** A contiguous mask of `w` bits, and a base aligned to the size, below 2^w. */
  ghost predicate Regular(m: Mtrr, w: nat) {
    && 12 <= w && m.mask / 4096 > 0 && m.base < Pow2(w)
    && var k := BitScanForward(m.mask / 4096);
    k <= w - 12 && m.mask / 4096 + Pow2(k) == Pow2(w - 12) && AlignedBy(m.base / 4096, k)
  }

  ghost predicate RegularState(st: State, w: nat) {
    w <= 63 && |st.fix16k| == 2 && |st.fix4k| == 8 && 20 <= w && forall i | 0 <= i < |st.vars| :: Regular(st.vars[i], w)
  }

  // ------------------------------------------------------------ a regular range

  /** The bits from `k` up. */
  function High(x: nat, k: nat): nat {
    if k == 0 then x else High(x / 2, k - 1)
  }

  lemma {:induction false} HighIs(x: nat, k: nat)
    ensures High(x, k) == x / Pow2(k)
    decreases k
  {
    if k > 0 {
      HighIs(x / 2, k - 1);
      HalfDiv(x, Pow2(k - 1));
    }
  }

  lemma {:induction false} AndShift(a: nat, b: nat, k: nat)
    ensures High(And(a, b), k) == And(High(a, k), High(b, k))
    decreases k
  {
    if k > 0 {
      AndShift(a / 2, b / 2, k - 1);
      HalfAnd(a, b);
    }
  }

  lemma HalfAnd(a: nat, b: nat)
    ensures And(a, b) / 2 == And(a / 2, b / 2)
  {
    if a > 0 && b > 0 {
      assert 0 <= (a % 2) * (b % 2) <= 1;
    }
  }

  /** A mask with all bits from `b` up to `a` keeps nothing of `x` exactly if `x` has no such bits. */
  lemma {:induction false} AndMask(x: nat, a: nat, b: nat)
    requires b <= a && x < Pow2(a)
    ensures Pow2(b) <= Pow2(a) && (And(x, Pow2(a) - Pow2(b)) == 0 <==> x / Pow2(b) == 0)
    decreases a
  {
    hide And;
    Pow2Order(b, a);
    AndNone(x);
    if b > 0 {
      AndMask(x / 2, a - 1, b - 1);
      HalfDiv(x, Pow2(b - 1));
      AndEven(x, Pow2(a - 1) - Pow2(b - 1));
    } else if a > 0 {
      AndMask(x / 2, a - 1, 0);
      AndOdd(x, Pow2(a - 1) - 1);
    }
  }

  lemma AndNone(x: nat)
    ensures And(x, 0) == 0 && And(0, x) == 0
  {
  }

  lemma AndEven(x: nat, m: nat)
    ensures And(x, 2 * m) == 2 * And(x / 2, m)
  {
    assert (2 * m) % 2 == 0 && (2 * m) / 2 == m;
  }

  lemma AndOdd(x: nat, m: nat)
    ensures And(x, 2 * m + 1) == x % 2 + 2 * And(x / 2, m)
  {
    assert (2 * m + 1) % 2 == 1 && (2 * m + 1) / 2 == m;
  }

  /** Words that agree above bit `w` differ below it only. */
  lemma XorBound(a: nat, b: nat, w: nat)
    requires a / Pow2(w) == b / Pow2(w)
    ensures Xor(a, b) < Pow2(w)
  {
    XorBlocks(a, b, w);
    DivRange(Xor(a, b), Pow2(w), 0);
  }

  lemma Twelve()
    ensures Pow2(12) == 4096
  {
    assert Pow2(4) == 16;
    Pow2Sum(4, 4);
    Pow2Sum(8, 4);
  }

  lemma DivTwice(x: nat, p: nat, q: nat)
    requires p >= 1 && q >= 1
    ensures p * q >= 1 && (x / p) / q == x / (p * q)
  {
    var k := x / p;
    var i := k / q;
    MulMono(1, p, q);
    Split(x, p);
    Split(k, q);
    Quotient(x, p, q, k, x % p, i, k % q);
  }

  lemma Split(x: nat, p: nat)
    requires p >= 1
    ensures x == x / p * p + x % p && 0 <= x % p < p
  {
  }

  lemma Quotient(x: nat, p: nat, q: nat, k: nat, r: nat, i: nat, j: nat)
    requires p >= 1 && q >= 1 && p * q >= 1 && x == k * p + r && r < p && k == i * q + j && j < q
    ensures x / (p * q) == i
  {
    Regroup(i, j, p, q);
    MulMono(j, q - 1, p);
    var n, m := p * q, j * p + r;
    assert x == i * n + m && m < n;
    DivModUnique(i, m, n);
  }

  lemma Regroup(i: nat, j: nat, p: nat, q: nat)
    ensures (i * q + j) * p == i * (p * q) + j * p && (q - 1) * p == p * q - p
  {
    assert i * q * p == i * (p * q);
  }

  /** The mask test compares the bits from the size up. */
  lemma MatchIsBlock(m: Mtrr, w: nat, phys: nat)
    requires Regular(m, w) && phys < Pow2(w)
    ensures Matches(m, phys) <==>
            phys / Pow2(BitScanForward(m.mask / 4096) + 12) == m.base / Pow2(BitScanForward(m.mask / 4096) + 12)
  {
    hide Pow2, And, Xor, BitScanForward;
    var k := BitScanForward(m.mask / 4096);
    var x := Xor(phys, m.base);
    Twelve();
    DivRange(phys, Pow2(w), 0);
    DivRange(m.base, Pow2(w), 0);
    XorBound(phys, m.base, w);
    PageBits(x, m.mask);
    Pow2Sum(w - 12, 12);
    SmallQuotient(x, 4096, Pow2(w - 12));
    AndMask(x / 4096, w - 12, k);
    Pow2Sum(k, 12);
    DivTwice(x, 4096, Pow2(k));
    XorBlocks(phys, m.base, k + 12);
  }

  lemma PageBits(a: nat, b: nat)
    ensures And(a, b) / 4096 == And(a / 4096, b / 4096)
  {
    hide And, Pow2;
    Twelve();
    AndShift(a, b, 12);
    HighIs(And(a, b), 12);
    HighIs(a, 12);
    HighIs(b, 12);
  }

  /** In the reach of the mask, a regular MTRR matches exactly its range. */
  lemma MatchIsRange(m: Mtrr, w: nat, phys: nat)
    requires Regular(m, w) && phys < Pow2(w)
    ensures Matches(m, phys) <==> Start(m) <= phys < Start(m) + Size(m)
  {
    hide Pow2, Matches, BitScanForward, Start;
    var k := BitScanForward(m.mask / 4096);
    MatchIsBlock(m, w, phys);
    StartAligned(m, k);
    SameBlock(phys, Start(m), k + 12);
    SameBlock(m.base, Start(m), k + 12);
    PageInBlock(m, k);
  }

  lemma SmallQuotient(x: nat, p: nat, q: nat)
    requires p >= 1 && x < q * p
    ensures x / p < q
  {
    if x / p >= q { MulMono(q, x / p, p); }
  }

  lemma StartAligned(m: Mtrr, k: nat)
    requires AlignedBy(m.base / 4096, k)
    ensures AlignedBy(Start(m), k + 12)
  {
    hide Pow2;
    Twelve();
    Pow2Sum(k, 12);
    var p, q := Pow2(k), m.base / 4096;
    var i := q / p;
    assert q == i * p;
    assert Start(m) == q * 4096;
    assert Start(m) == i * (p * 4096) by { assert i * p * 4096 == i * (p * 4096); }
    DivModUnique(i, 0, p * 4096);
  }

  lemma PageInBlock(m: Mtrr, k: nat)
    ensures Start(m) <= m.base < Start(m) + Pow2(k + 12)
  {
    Twelve();
    Pow2Order(12, k + 12);
  }

  /** A regular range consists of whole pages and ends within the reach of the mask. */
  lemma RangeFits(m: Mtrr, w: nat)
    requires Regular(m, w)
    ensures Start(m) % 4096 == 0 && Size(m) % 4096 == 0 && 4096 <= Size(m) && Start(m) + Size(m) <= Pow2(w)
  {
    hide Pow2, BitScanForward, AlignedBy;
    var k := BitScanForward(m.mask / 4096);
    StartAligned(m, k);
    WholePages(k);
    assert Start(m) <= m.base;
    EndFits(Start(m), k + 12, w);
  }

  lemma WholePages(k: nat)
    ensures Pow2(k + 12) % 4096 == 0 && 4096 <= Pow2(k + 12)
  {
    hide Pow2;
    Twelve();
    Pow2Order(12, k + 12);
    SelfAligned(12, k + 12);
  }

  lemma EndFits(a: nat, k: nat, w: nat)
    requires k <= w && AlignedBy(a, k) && a < Pow2(w)
    ensures a + Pow2(k) <= Pow2(w)
  {
    hide Pow2;
    SelfAligned(k, w);
    BlockEnd(a, Pow2(w), k, w);
  }

  lemma SelfAligned(k: nat, w: nat)
    requires k <= w
    ensures AlignedBy(Pow2(w), w) && Pow2(w) % Pow2(k) == 0
  {
    hide Pow2;
    DivModUnique(1, 0, Pow2(w));
    AlignedDown(Pow2(w), w, k);
  }

  // -------------------------------------------------------- type and extent

  /** The best type of the first `n` MTRRs that match the address. */
  function Best(vars: seq<Mtrr>, n: nat, a: nat): nat
    requires n <= |vars|
  {
    if n == 0 then NO_TYPE
    else if Matches(vars[n - 1], a) then Min(Best(vars, n - 1, a), TypeOf(vars[n - 1])) else Best(vars, n - 1, a)
  }

  /** Byte `i` of a word of fixed-range types. */
  function ByteOf(word: nat, i: nat): nat {
    (word / Pow2(8 * i)) % 256
  }

  /** The type of one address: the fixed ranges below 1 MB, above it the least type that matches, else the default. */
  function TypeAt(st: State, a: nat): nat
    requires |st.fix16k| == 2 && |st.fix4k| == 8
  {
    if a < 0x80000 then ByteOf(st.fix64k, a / 0x10000 % 8)
    else if a < 0xc0000 then ByteOf(st.fix16k[a / 0x20000 % 2], a / 0x4000 % 8)
    else if a < 0x100000 then ByteOf(st.fix4k[a / 0x8000 % 8], a / 0x1000 % 8)
    else var t := Best(st.vars, |st.vars|, a); if t == NO_TYPE then st.fallback else t
  }

  /** Where the first `n` MTRRs, seen from `phys`, next change anything. */
  function Next(vars: seq<Mtrr>, n: nat, phys: nat): nat
    requires n <= |vars|
  {
    if n == 0 then NO_NEXT
    else
      var m, r := vars[n - 1], Next(vars, n - 1, phys);
      if phys < Start(m) then Min(r, Start(m))
      else if Matches(m, phys) then Min(r, Start(m) + Size(m)) else r
  }

  /** The `next` that `memtype` returns. */
  function NextOf(st: State, phys: nat): nat {
    if phys < 0x80000 then 1 + Or(phys, 0xffff)
    else if phys < 0xc0000 then 1 + Or(phys, 0x3fff)
    else if phys < 0x100000 then 1 + Or(phys, 0xfff)
    else Next(st.vars, |st.vars|, phys)
  }

  lemma {:induction false} OrLow(x: nat, k: nat)
    ensures Or(x, Pow2(k) - 1) == Pow2(k) * High(x, k) + (Pow2(k) - 1)
    decreases k
  {
    hide Or;
    if k > 0 {
      OrLow(x / 2, k - 1);
      OrOdd(x, Pow2(k - 1) - 1);
      Twice(Pow2(k - 1), High(x / 2, k - 1));
    } else {
      OrNone(x);
    }
  }

  lemma OrNone(x: nat)
    ensures Or(x, 0) == x
  {
  }

  lemma Twice(p: nat, h: nat)
    ensures 2 * (p * h) == (2 * p) * h
  {
  }

  lemma OrOdd(x: nat, m: nat)
    ensures Or(x, 2 * m + 1) == 1 + 2 * Or(x / 2, m)
  {
    assert (2 * m + 1) % 2 == 1 && (2 * m + 1) / 2 == m;
  }

  /** Seen from `phys`, each MTRR keeps matching or not matching up to the next change. */
  lemma {:induction false} NextKeeps(vars: seq<Mtrr>, n: nat, w: nat, phys: nat, a: nat)
    requires n <= |vars| && (forall i | 0 <= i < n :: Regular(vars[i], w)) && phys <= a < Next(vars, n, phys)
    requires a < Pow2(w)
    ensures Best(vars, n, a) == Best(vars, n, phys)
  {
    hide Regular, Matches, Start, Size, Pow2;
    if n > 0 {
      NextKeeps(vars, n - 1, w, phys, a);
      MatchIsRange(vars[n - 1], w, phys);
      MatchIsRange(vars[n - 1], w, a);
    }
  }

  /** No MTRR matches. */
  ghost predicate NoMatch(vars: seq<Mtrr>, n: nat, phys: nat)
    requires n <= |vars|
  {
    forall i | 0 <= i < n :: !Matches(vars[i], phys)
  }

  /**
   The search advances exactly if the address is in reach of the masks or matches nothing: beyond their reach a match
   is with an alias, whose range ends behind the address.
   */
  lemma {:induction false} NextAdvances(vars: seq<Mtrr>, n: nat, w: nat, phys: nat)
    requires n <= |vars| && w <= 63 && (forall i | 0 <= i < n :: Regular(vars[i], w)) && phys < NO_NEXT
    ensures Next(vars, n, phys) > phys <==> phys < Pow2(w) || NoMatch(vars, n, phys)
    ensures Next(vars, n, phys) == NO_NEXT || (Next(vars, n, phys) % 4096 == 0 && Next(vars, n, phys) <= Pow2(w))
  {
    hide Regular, Matches, Start, Size, Pow2;
    if n > 0 {
      NextAdvances(vars, n - 1, w, phys);
      var m := vars[n - 1];
      if phys < Pow2(w) { MatchIsRange(m, w, phys); }
      RangeFits(m, w);
    }
  }

  /** With masks of 20 bits and a range [0, 2^19), the search goes back from 2^20 to 2^19. */
  lemma NextGoesBack()
    ensures var m := Mtrr(6, 0x80800); Regular(m, 20) && Next([m], 1, 0x100000) == 0x80000 && Pow2(20) == 0x100000
  {
    hide Pow2, Xor, And, BitScanForward;
    var m := Mtrr(6, 0x80800);
    ExampleMask();
    ExampleWord();
    PageBits(Xor(0x100000, 6), 0x80800);
    assert Matches(m, 0x100000);
    assert Next([m], 0, 0x100000) == NO_NEXT;
    ExampleAligned();
  }

  lemma ExampleAligned()
    ensures AlignedBy(0, 7)
  {
    hide Pow2;
    DivModUnique(0, 0, Pow2(7));
  }

  lemma ExampleMask()
    ensures BitScanForward(128) == 7 && Pow2(7) == 128 && Pow2(8) == 256 && Pow2(19) == 0x80000 && Pow2(20) == 0x100000
  {
    Twelve();
    assert Pow2(3) == 8 && Pow2(4) == 16;
    Pow2Sum(4, 4);
    Pow2Sum(4, 3);
    Pow2Sum(12, 7);
    Pow2Sum(12, 8);
    assert BitScanForward(1) == 0 && BitScanForward(2) == 1 && BitScanForward(4) == 2 && BitScanForward(8) == 3;
    assert BitScanForward(16) == 4 && BitScanForward(32) == 5 && BitScanForward(64) == 6;
  }

  lemma ExampleWord()
    ensures Xor(0x100000, 6) == 0x100006 && And(256, 128) == 0
  {
    assert Xor(0x20000, 0) == 0x20000;
    assert Xor(0x40000, 1) == 0x40001;
    assert Xor(0x80000, 3) == 0x80003;
    assert And(1, 0) == 0 && And(2, 1) == 0 && And(4, 2) == 0 && And(8, 4) == 0 && And(16, 8) == 0;
    assert And(32, 16) == 0 && And(64, 32) == 0 && And(128, 64) == 0;
  }

  // ------------------------------------------------- what the types stand for

  /** `t` is byte `i` of the word. */
  ghost predicate IsByte(word: nat, i: nat, t: nat) {
    exists high: nat, low: nat :: Digits(word, i, high, t, low)
  }

  predicate Digits(word: nat, i: nat, high: nat, t: nat, low: nat) {
    t < 256 && low < Pow2(8 * i) && word == (256 * high + t) * Pow2(8 * i) + low
  }

  /**
   `t` is the type that the fixed ranges give an address below 1 MB: eight of 64 KB, sixteen of 16 KB, and
   sixty-four of 4 KB, each with a byte of its own.
   */
  ghost predicate FixedType(st: State, a: nat, t: nat)
    requires |st.fix16k| == 2 && |st.fix4k| == 8
  {
    && (forall i: nat | i < 8 && 0x10000 * i <= a < 0x10000 * (i + 1) :: IsByte(st.fix64k, i, t))
    && (forall j: nat, i: nat | j < 2 && i < 8 && Inside(a, 0x80000, j, 0x20000, i, 0x4000) ::
          IsByte(st.fix16k[j], i, t))
    && (forall j: nat, i: nat | j < 8 && i < 8 && Inside(a, 0xc0000, j, 0x8000, i, 0x1000) ::
          IsByte(st.fix4k[j], i, t))
  }

  /** From `base` on, words stand for `word` bytes each and their bytes for `piece`: `a` is in piece `i` of word `j`. */
  predicate Inside(a: nat, base: nat, j: nat, word: nat, i: nat, piece: nat) {
    base + word * j + piece * i <= a < base + word * j + piece * (i + 1)
  }

  predicate Holds(m: Mtrr, a: nat) {
    Start(m) <= a < Start(m) + Size(m)
  }

  /** `t` is the least of the types of all variable ranges that hold the address, or the default if there is none. */
  ghost predicate LeastType(st: State, a: nat, t: nat) {
    && (forall i | 0 <= i < |st.vars| && Holds(st.vars[i], a) :: t <= st.vars[i].base % 256)
    && if exists i :: 0 <= i < |st.vars| && Holds(st.vars[i], a)
       then exists i :: 0 <= i < |st.vars| && Holds(st.vars[i], a) && t == st.vars[i].base % 256
       else t == st.fallback
  }

  ghost predicate IsType(st: State, a: nat, t: nat)
    requires |st.fix16k| == 2 && |st.fix4k| == 8
  {
    if a < 0x100000 then FixedType(st, a, t) else LeastType(st, a, t)
  }

  lemma ByteIs(word: nat, i: nat)
    ensures IsByte(word, i, ByteOf(word, i))
  {
    hide Pow2;
    var p := Pow2(8 * i);
    var q, low := word / p, word % p;
    assert word == q * p + low;
    assert q == 256 * (q / 256) + ByteOf(word, i);
    assert Digits(word, i, q / 256, ByteOf(word, i), low);
  }

  lemma {:induction false} BestIsLeast(vars: seq<Mtrr>, n: nat, a: nat)
    requires n <= |vars|
    ensures forall i | 0 <= i < n && Matches(vars[i], a) :: Best(vars, n, a) <= vars[i].base % 256
    ensures if exists i :: 0 <= i < n && Matches(vars[i], a)
            then exists i :: 0 <= i < n && Matches(vars[i], a) && Best(vars, n, a) == vars[i].base % 256
            else Best(vars, n, a) == NO_TYPE
  {
    hide Matches;
    if n > 0 {
      BestIsLeast(vars, n - 1, a);
      if Matches(vars[n - 1], a) && exists i :: 0 <= i < n - 1 && Matches(vars[i], a) {
        var i :| 0 <= i < n - 1 && Matches(vars[i], a) && Best(vars, n - 1, a) == vars[i].base % 256;
      }
    }
  }

  lemma Index64(a: nat, i: nat)
    requires i < 8 && 0x10000 * i <= a < 0x10000 * (i + 1)
    ensures a < 0x80000 && i == a / 0x10000 % 8
  {
  }

  lemma Index16(a: nat, j: nat, i: nat)
    requires j < 2 && i < 8 && Inside(a, 0x80000, j, 0x20000, i, 0x4000)
    ensures 0x80000 <= a < 0xc0000 && j == a / 0x20000 % 2 && i == a / 0x4000 % 8
  {
    assert a / 0x4000 == 32 + 8 * j + i;
    assert a / 0x20000 == 4 + j;
  }

  lemma Index4(a: nat, j: nat, i: nat)
    requires j < 8 && i < 8 && Inside(a, 0xc0000, j, 0x8000, i, 0x1000)
    ensures 0xc0000 <= a < 0x100000 && j == a / 0x8000 % 8 && i == a / 0x1000 % 8
  {
    assert a / 0x1000 == 192 + 8 * j + i;
    assert a / 0x8000 == 24 + j;
  }

  lemma FixedIs(st: State, a: nat)
    requires |st.fix16k| == 2 && |st.fix4k| == 8 && a < 0x100000
    ensures FixedType(st, a, TypeAt(st, a))
  {
    hide IsByte, ByteOf, Best, Inside;
    forall i: nat | i < 8 && 0x10000 * i <= a < 0x10000 * (i + 1) ensures IsByte(st.fix64k, i, TypeAt(st, a)) {
      Index64(a, i);
      ByteIs(st.fix64k, i);
    }
    forall j: nat, i: nat | j < 2 && i < 8 && Inside(a, 0x80000, j, 0x20000, i, 0x4000)
      ensures IsByte(st.fix16k[j], i, TypeAt(st, a))
    {
      Index16(a, j, i);
      ByteIs(st.fix16k[j], i);
    }
    forall j: nat, i: nat | j < 8 && i < 8 && Inside(a, 0xc0000, j, 0x8000, i, 0x1000)
      ensures IsByte(st.fix4k[j], i, TypeAt(st, a))
    {
      Index4(a, j, i);
      ByteIs(st.fix4k[j], i);
    }
  }

  lemma LeastIs(st: State, w: nat, a: nat)
    requires RegularState(st, w) && 0x100000 <= a < Pow2(w)
    ensures LeastType(st, a, TypeAt(st, a))
  {
    hide Regular, Matches, Start, Size, Pow2, Best, ByteOf, Holds;
    forall i | 0 <= i < |st.vars| ensures Matches(st.vars[i], a) <==> Holds(st.vars[i], a) {
      MatchHolds(st.vars[i], w, a);
    }
    BestIsLeast(st.vars, |st.vars|, a);
  }

  lemma MatchHolds(m: Mtrr, w: nat, a: nat)
    requires Regular(m, w) && a < Pow2(w)
    ensures Matches(m, a) <==> Holds(m, a)
  {
    hide Regular, Matches, Start, Size, Pow2;
    MatchIsRange(m, w, a);
  }

  /** Within reach of the masks, the type computed is the type the registers stand for. */
  lemma TypeIs(st: State, w: nat, a: nat)
    requires RegularState(st, w) && a < Pow2(w)
    ensures IsType(st, a, TypeAt(st, a))
  {
    hide RegularState, TypeAt, FixedType, LeastType;
    Registers(st, w);
    if a < 0x100000 { FixedIs(st, a); } else { LeastIs(st, w, a); }
  }

  lemma Registers(st: State, w: nat)
    requires RegularState(st, w)
    ensures |st.fix16k| == 2 && |st.fix4k| == 8
  {
  }

  /** `memtype`: the type at `phys`, and the first address from which it may differ. */
  method Memtype(st: State, phys: nat, ghost w: nat) returns (t: nat, next: nat)
    requires RegularState(st, w) && phys < NO_NEXT
    ensures t == TypeAt(st, phys) && (phys < Pow2(w) ==> IsType(st, phys, t))
    ensures next > phys <==> phys < Pow2(w) || NoMatch(st.vars, |st.vars|, phys)
    ensures forall a: nat | phys <= a < next && a < Pow2(w) :: TypeAt(st, a) == t
    ensures next == NO_NEXT || (next % 4096 == 0 && next <= Pow2(w))
    ensures phys < 0x100000 ==> next <= 0x100000
    ensures next == NextOf(st, phys)
  {
    hide Regular, Matches, Start, Size, Pow2, ByteOf, Or, TypeAt, Next, Best, NoMatch, IsType;
    LowMegabyte(w);
    if phys < Pow2(w) { TypeIs(st, w, phys); }
    if phys < 0x80000 {
      Fixed64(st, phys);
      next := 1 + Or(phys, 0xffff);
      return ByteOf(st.fix64k, phys / 0x10000 % 8), next;
    }
    if phys < 0xc0000 {
      Fixed16(st, phys);
      next := 1 + Or(phys, 0x3fff);
      return ByteOf(st.fix16k[phys / 0x20000 % 2], phys / 0x4000 % 8), next;
    }
    if phys < 0x100000 {
      Fixed4(st, phys);
      next := 1 + Or(phys, 0xfff);
      return ByteOf(st.fix4k[phys / 0x8000 % 8], phys / 0x1000 % 8), next;
    }
    t, next := VarType(st.vars, phys, w);
    VarKeeps(st, w, phys);
    if t == NO_TYPE {
      t := st.fallback;
    }
  }

  /** The loop over the variable MTRRs. */
  method VarType(vars: seq<Mtrr>, phys: nat, ghost w: nat) returns (t: nat, next: nat)
    requires forall i | 0 <= i < |vars| :: Regular(vars[i], w)
    ensures t == Best(vars, |vars|, phys) && next == Next(vars, |vars|, phys)
    ensures forall i | 0 <= i < |vars| && Matches(vars[i], phys) :: t <= vars[i].base % 256
    ensures if exists i :: 0 <= i < |vars| && Matches(vars[i], phys)
            then exists i :: 0 <= i < |vars| && Matches(vars[i], phys) && t == vars[i].base % 256
            else t == NO_TYPE
  {
    BestIsLeast(vars, |vars|, phys);
    hide Regular, Matches, Start, Size, Pow2;
    t, next := NO_TYPE, NO_NEXT;
    for i := 0 to |vars|
      invariant t == Best(vars, i, phys) && next == Next(vars, i, phys)
    {
      var m := vars[i];
      AliasOrNot(m, w, phys);
      if phys < Start(m) {
        next := Min(next, Start(m));
      } else if Matches(m, phys) {
        next := Min(next, Start(m) + Size(m));
        t := Min(t, TypeOf(m));
      }
    }
  }

  /** Each fixed range has one type throughout. */
  lemma Fixed64(st: State, phys: nat)
    requires |st.fix16k| == 2 && |st.fix4k| == 8 && phys < 0x80000
    ensures TypeAt(st, phys) == ByteOf(st.fix64k, phys / 0x10000 % 8)
    ensures phys < 1 + Or(phys, 0xffff) <= 0x100000 && (1 + Or(phys, 0xffff)) % 4096 == 0
    ensures forall a: nat | phys <= a < 1 + Or(phys, 0xffff) :: TypeAt(st, a) == TypeAt(st, phys)
  {
    hide ByteOf, Best, Or;
    OrFixed(phys);
    forall a: nat | phys <= a < 1 + Or(phys, 0xffff) ensures TypeAt(st, a) == TypeAt(st, phys) {
      assert a / 0x10000 == phys / 0x10000;
    }
  }

  lemma Fixed16(st: State, phys: nat)
    requires |st.fix16k| == 2 && |st.fix4k| == 8 && 0x80000 <= phys < 0xc0000
    ensures TypeAt(st, phys) == ByteOf(st.fix16k[phys / 0x20000 % 2], phys / 0x4000 % 8)
    ensures phys < 1 + Or(phys, 0x3fff) <= 0x100000 && (1 + Or(phys, 0x3fff)) % 4096 == 0
    ensures forall a: nat | phys <= a < 1 + Or(phys, 0x3fff) :: TypeAt(st, a) == TypeAt(st, phys)
  {
    hide ByteOf, Best, Or;
    OrFixed(phys);
    forall a: nat | phys <= a < 1 + Or(phys, 0x3fff) ensures TypeAt(st, a) == TypeAt(st, phys) {
      assert a / 0x4000 == phys / 0x4000;
    }
  }

  lemma Fixed4(st: State, phys: nat)
    requires |st.fix16k| == 2 && |st.fix4k| == 8 && 0xc0000 <= phys < 0x100000
    ensures TypeAt(st, phys) == ByteOf(st.fix4k[phys / 0x8000 % 8], phys / 0x1000 % 8)
    ensures phys < 1 + Or(phys, 0xfff) <= 0x100000 && (1 + Or(phys, 0xfff)) % 4096 == 0
    ensures forall a: nat | phys <= a < 1 + Or(phys, 0xfff) :: TypeAt(st, a) == TypeAt(st, phys)
  {
    hide ByteOf, Best, Or;
    OrFixed(phys);
    forall a: nat | phys <= a < 1 + Or(phys, 0xfff) ensures TypeAt(st, a) == TypeAt(st, phys) {
      assert a / 0x1000 == phys / 0x1000;
    }
  }

  lemma VarKeeps(st: State, w: nat, phys: nat)
    requires RegularState(st, w) && 0x100000 <= phys < NO_NEXT
    ensures var t, next := Best(st.vars, |st.vars|, phys), Next(st.vars, |st.vars|, phys);
            && TypeAt(st, phys) == (if t == NO_TYPE then st.fallback else t)
            && (next > phys <==> phys < Pow2(w) || NoMatch(st.vars, |st.vars|, phys))
            && (forall a: nat | phys <= a < next && a < Pow2(w) :: TypeAt(st, a) == TypeAt(st, phys))
            && (next == NO_NEXT || (next % 4096 == 0 && next <= Pow2(w)))
  {
    hide Regular, Matches, Start, Size, Pow2, ByteOf, Next, Best, NoMatch;
    var next := Next(st.vars, |st.vars|, phys);
    NextAdvances(st.vars, |st.vars|, w, phys);
    forall a: nat | phys <= a < next && a < Pow2(w) ensures TypeAt(st, a) == TypeAt(st, phys) {
      NextKeeps(st.vars, |st.vars|, w, phys, a);
    }
  }

  lemma LowMegabyte(w: nat)
    requires 20 <= w
    ensures 0x100000 <= Pow2(w)
  {
    Twelve();
    assert Pow2(8) == 256;
    Pow2Sum(12, 8);
    Pow2Order(20, w);
  }

  lemma OrFixed(x: nat)
    ensures Or(x, 0xffff) == 0x10000 * (x / 0x10000) + 0xffff
    ensures Or(x, 0x3fff) == 0x4000 * (x / 0x4000) + 0x3fff
    ensures Or(x, 0xfff) == 0x1000 * (x / 0x1000) + 0xfff
  {
    hide Or;
    Twelve();
    Pow2Sum(12, 4);
    Pow2Sum(12, 2);
    assert Pow2(4) == 16 && Pow2(2) == 4;
    HighIs(x, 16);
    HighIs(x, 14);
    HighIs(x, 12);
    OrLow(x, 16);
    OrLow(x, 14);
    OrLow(x, 12);
  }

  /** Below its start a regular MTRR does not match. */
  lemma AliasOrNot(m: Mtrr, w: nat, phys: nat)
    requires Regular(m, w)
    ensures phys < Start(m) ==> !Matches(m, phys)
  {
    hide Matches, Pow2;
    RangeFits(m, w);
    if phys < Start(m) { MatchIsRange(m, w, phys); }
  }

  // ------------------------------------------------------------- the whole search

  /** Where `n` steps of the loop `for (cur = start; cur < end; cur = next)` lead. */
  function Cursor(st: State, cur: nat, end: nat, n: nat): nat
    decreases n
  {
    if n == 0 || cur >= end then cur else Cursor(st, NextOf(st, cur), end, n - 1)
  }

  /** The loop ends. */
  ghost predicate Ends(st: State, cur: nat, end: nat) {
    exists n: nat :: Cursor(st, cur, end, n) >= end
  }

  /** Some step of the search leads to 2^w: a range ends there, or the fixed ranges do. */
  ghost predicate ReachesTop(st: State, w: nat) {
    w == 20 || exists i :: 0 <= i < |st.vars| && Start(st.vars[i]) + Size(st.vars[i]) == Pow2(w)
  }

  /** Some range starts at 0, so that 2^w is one of its aliases. */
  ghost predicate FromZero(st: State) {
    exists i :: 0 <= i < |st.vars| && Start(st.vars[i]) == 0
  }

  /** When the loop from `start` to `end` ends. */
  ghost predicate Terminates(st: State, w: nat, start: nat, end: nat) {
    || end <= start || (start < Pow2(w) && end <= Pow2(w)) || (start >= Pow2(w) && NoMatch(st.vars, |st.vars|, start))
    || !ReachesTop(st, w) || !FromZero(st)
  }

  lemma {:induction false} XorTop(b: nat, w: nat)
    requires b < Pow2(w)
    ensures Xor(Pow2(w), b) == Pow2(w) + b
    decreases w
  {
    if b > 0 {
      assert w > 0;
      var p := Pow2(w - 1);
      assert (2 * p) % 2 == 0 && (2 * p) / 2 == p;
      XorTop(b / 2, w - 1);
    }
  }

  lemma {:induction false} AndTop(y: nat, m: nat, a: nat)
    requires y < Pow2(a) && m < Pow2(a)
    ensures And(Pow2(a) + y, m) == And(y, m)
    decreases a
  {
    if a > 0 && m > 0 {
      var p := Pow2(a - 1);
      assert (2 * p + y) % 2 == y % 2 && (2 * p + y) / 2 == p + y / 2;
      AndTop(y / 2, m / 2, a - 1);
      HalfAnd(2 * p + y, m);
      AndSplit(2 * p + y, m);
      AndSplit(y, m);
    }
  }

  lemma AndSplit(a: nat, b: nat)
    ensures And(a, b) == (a % 2) * (b % 2) + 2 * And(a / 2, b / 2)
  {
    if a == 0 {
    } else if b == 0 {
      assert b % 2 == 0 && b / 2 == 0;
    }
  }

  /** The first address beyond the reach of the masks is an alias of 0. */
  lemma TopMatches(m: Mtrr, w: nat)
    requires Regular(m, w)
    ensures Matches(m, Pow2(w)) <==> Start(m) == 0
  {
    hide Pow2, And, Xor, BitScanForward;
    var k, y := BitScanForward(m.mask / 4096), m.base / 4096;
    TopWord(m, w);
    AndMask(y, w - 12, k);
    DivRange(y, Pow2(k), 0);
    if y < Pow2(k) { AlignedZero(y, k); }
  }

  lemma TopWord(m: Mtrr, w: nat)
    requires Regular(m, w)
    ensures And(Xor(Pow2(w), m.base), m.mask) / 4096 == And(m.base / 4096, m.mask / 4096)
    ensures m.base / 4096 < Pow2(w - 12)
  {
    hide Pow2, And, Xor, BitScanForward, AlignedBy;
    var p := Pow2(w - 12);
    Twelve();
    XorTop(m.base, w);
    Pow2Sum(w - 12, 12);
    PageBits(Pow2(w) + m.base, m.mask);
    TopPage(p, m.base);
    SmallQuotient(m.base, 4096, p);
    AndTop(m.base / 4096, m.mask / 4096, w - 12);
  }

  lemma TopPage(p: nat, b: nat)
    ensures (p * 4096 + b) / 4096 == p + b / 4096
  {
  }

  lemma AlignedZero(y: nat, k: nat)
    requires AlignedBy(y, k) && y < Pow2(k)
    ensures y == 0
  {
    hide Pow2;
    var p := Pow2(k);
    assert y == p * (y / p) + y % p;
    DivRange(y, p, 0);
  }

  lemma {:induction false} NextTop(vars: seq<Mtrr>, n: nat, w: nat, phys: nat)
    requires n <= |vars| && w <= 63 && (forall i | 0 <= i < n :: Regular(vars[i], w)) && Next(vars, n, phys) == Pow2(w)
    ensures exists i :: 0 <= i < n && Start(vars[i]) + Size(vars[i]) == Pow2(w)
  {
    hide Regular, Matches, Start, Size;
    if n > 0 {
      RangeFits(vars[n - 1], w);
      if Next(vars, n - 1, phys) == Pow2(w) { NextTop(vars, n - 1, w, phys); }
    } else {
      BelowNoNext(w);
    }
  }

  lemma TwentyOne()
    ensures Pow2(21) == 0x200000
  {
    Twelve();
    assert Pow2(9) == 512;
    Pow2Sum(12, 9);
  }

  lemma SixtyThree()
    ensures Pow2(63) == 0x8000_0000_0000_0000
  {
    hide Pow2;
    TwentyOne();
    Pow2Sum(21, 21);
    Pow2Sum(42, 21);
  }

  lemma BelowNoNext(w: nat)
    requires w <= 63
    ensures Pow2(w) < NO_NEXT
  {
    hide Pow2;
    SixtyThree();
    Pow2Order(w, 63);
  }

  /** A range ahead of the address, or one that matches it, keeps the next change within reach. */
  lemma {:induction false} NextWithin(vars: seq<Mtrr>, n: nat, w: nat, phys: nat, i: nat)
    requires i < n <= |vars| && (forall j | 0 <= j < n :: Regular(vars[j], w))
    requires phys < Start(vars[i]) || Matches(vars[i], phys)
    ensures Next(vars, n, phys) <= Pow2(w)
  {
    hide Regular, Matches, Start, Size, Pow2;
    RangeFits(vars[n - 1], w);
    if i < n - 1 { NextWithin(vars, n - 1, w, phys, i); }
  }

  /** The search moves on within reach, and ends up within reach or at the end of all addresses. */
  lemma NextOfFacts(st: State, w: nat, phys: nat)
    requires RegularState(st, w) && phys < NO_NEXT
    ensures NextOf(st, phys) > phys <==> phys < Pow2(w) || NoMatch(st.vars, |st.vars|, phys)
    ensures NextOf(st, phys) == NO_NEXT || NextOf(st, phys) <= Pow2(w)
    ensures phys < 0x100000 ==> NextOf(st, phys) <= 0x100000 <= Pow2(w)
  {
    hide Regular, Matches, Start, Size, Pow2, ByteOf, Or, TypeAt, Next, Best, NoMatch, IsType;
    LowMegabyte(w);
    if phys < Pow2(w) { TypeIs(st, w, phys); }
    if phys < 0x80000 { Fixed64(st, phys); } else if phys < 0xc0000 { Fixed16(st, phys); }
    else if phys < 0x100000 { Fixed4(st, phys); }
    else { VarKeeps(st, w, phys); }
  }

  lemma OnlyTop(st: State, w: nat, phys: nat)
    requires RegularState(st, w) && phys < NO_NEXT && NextOf(st, phys) == Pow2(w)
    ensures ReachesTop(st, w)
  {
    hide Regular, Matches, Start, Size, Or, Next;
    NextOfFacts(st, w, phys);
    if phys >= 0x100000 { NextTop(st.vars, |st.vars|, w, phys); } else { TwentyOnly(w); }
  }

  lemma TwentyOnly(w: nat)
    requires 20 <= w && Pow2(w) <= 0x100000
    ensures w == 20
  {
    Twelve();
    assert Pow2(8) == 256;
    Pow2Sum(12, 8);
    Pow2Order(w, 20);
  }

  /** At 2^w, exactly the ranges from 0 match. */
  lemma TopNoMatch(st: State, w: nat)
    requires RegularState(st, w)
    ensures NoMatch(st.vars, |st.vars|, Pow2(w)) <==> !FromZero(st)
  {
    hide Regular, Matches, Start, Pow2;
    forall i | 0 <= i < |st.vars| ensures Matches(st.vars[i], Pow2(w)) <==> Start(st.vars[i]) == 0 {
      TopMatches(st.vars[i], w);
    }
  }

  /** With a range up to 2^w and one from 0, the search stays within reach. */
  lemma StuckStep(st: State, w: nat, cur: nat)
    requires RegularState(st, w) && ReachesTop(st, w) && FromZero(st) && cur <= Pow2(w)
    ensures NextOf(st, cur) <= Pow2(w)
  {
    hide Regular, Matches, Start, Size, Pow2, Or;
    BelowNoNext(w);
    NextOfFacts(st, w, cur);
    if cur >= 0x100000 {
      if cur == Pow2(w) {
        var i :| 0 <= i < |st.vars| && Start(st.vars[i]) == 0;
        TopMatches(st.vars[i], w);
        NextWithin(st.vars, |st.vars|, w, cur, i);
      } else {
        TwentyMeg(w, cur);
        var i :| 0 <= i < |st.vars| && Start(st.vars[i]) + Size(st.vars[i]) == Pow2(w);
        MatchIsRange(st.vars[i], w, cur);
        NextWithin(st.vars, |st.vars|, w, cur, i);
      }
    }
  }

  lemma TwentyMeg(w: nat, cur: nat)
    requires 0x100000 <= cur < Pow2(w)
    ensures w != 20
  {
    Twelve();
    assert Pow2(8) == 256;
    Pow2Sum(12, 8);
  }

  lemma {:induction false} Stuck(st: State, w: nat, cur: nat, end: nat, n: nat)
    requires RegularState(st, w) && ReachesTop(st, w) && FromZero(st) && cur <= Pow2(w)
    ensures Cursor(st, cur, end, n) <= Pow2(w)
    decreases n
  {
    hide NextOf, RegularState, ReachesTop, FromZero, Pow2;
    if n > 0 && cur < end {
      StuckStep(st, w, cur);
      Stuck(st, w, NextOf(st, cur), end, n - 1);
    }
  }

  lemma EndsNext(st: State, cur: nat, end: nat)
    requires cur < end
    ensures Ends(st, cur, end) <==> Ends(st, NextOf(st, cur), end)
  {
    hide NextOf;
    if Ends(st, NextOf(st, cur), end) {
      var n: nat :| Cursor(st, NextOf(st, cur), end, n) >= end;
      assert Cursor(st, cur, end, n + 1) >= end;
    }
    if Ends(st, cur, end) {
      var n: nat :| Cursor(st, cur, end, n) >= end;
      assert n > 0;
      assert Cursor(st, NextOf(st, cur), end, n - 1) >= end;
    }
  }

  lemma EndsNow(st: State, cur: nat, end: nat)
    requires cur >= end
    ensures Ends(st, cur, end)
  {
    assert Cursor(st, cur, end, 0) >= end;
  }

  /** Within reach the loop ends, unless it gets to 2^w and back. */
  lemma {:induction false} EndsWithin(st: State, w: nat, cur: nat, end: nat)
    requires RegularState(st, w) && cur <= Pow2(w) && end <= NO_NEXT
    requires end <= Pow2(w) || !FromZero(st) || (!ReachesTop(st, w) && cur < Pow2(w))
    ensures Ends(st, cur, end)
    decreases Pow2(w) - cur
  {
    hide NextOf, RegularState, ReachesTop, FromZero, Pow2, Ends, NoMatch;
    if cur >= end {
      EndsNow(st, cur, end);
    } else {
      var next := NextOf(st, cur);
      NextOfFacts(st, w, cur);
      if cur == Pow2(w) { TopNoMatch(st, w); }
      if next == NO_NEXT {
        EndsNow(st, next, end);
      } else {
        if next == Pow2(w) { OnlyTop(st, w, cur); }
        EndsWithin(st, w, next, end);
      }
      EndsNext(st, cur, end);
    }
  }

  /** The loop of `insert_root` ends exactly under this condition on the range and the MTRRs. */
  lemma TerminationIff(st: State, w: nat, start: nat, end: nat)
    requires RegularState(st, w) && end <= NO_NEXT
    ensures Ends(st, start, end) <==> Terminates(st, w, start, end)
  {
    hide NextOf, RegularState, ReachesTop, FromZero, Pow2, Ends, NoMatch;
    if end <= start {
      EndsNow(st, start, end);
    } else if start <= Pow2(w) {
      if end <= Pow2(w) || !FromZero(st) || (!ReachesTop(st, w) && start < Pow2(w)) {
        EndsWithin(st, w, start, end);
      } else if start == Pow2(w) {
        StartAtTop(st, w, end);
      } else {
        NeverEnds(st, w, start, end);
      }
    } else {
      StartBeyond(st, w, start, end);
    }
  }

  lemma NeverEnds(st: State, w: nat, cur: nat, end: nat)
    requires RegularState(st, w) && ReachesTop(st, w) && FromZero(st) && cur <= Pow2(w) < end
    ensures !Ends(st, cur, end)
  {
    hide NextOf, RegularState, ReachesTop, FromZero, Pow2;
    forall n: nat ensures Cursor(st, cur, end, n) < end { Stuck(st, w, cur, end, n); }
  }

  lemma StartAtTop(st: State, w: nat, end: nat)
    requires RegularState(st, w) && FromZero(st) && Pow2(w) < end <= NO_NEXT
    ensures Ends(st, Pow2(w), end) <==> !ReachesTop(st, w)
    ensures !NoMatch(st.vars, |st.vars|, Pow2(w))
  {
    hide NextOf, RegularState, ReachesTop, FromZero, Pow2, Ends, NoMatch;
    TopNoMatch(st, w);
    BeyondStep(st, w, Pow2(w), end);
  }

  /** From an alias the search goes back into reach. */
  lemma BeyondStep(st: State, w: nat, start: nat, end: nat)
    requires RegularState(st, w) && Pow2(w) <= start < end <= NO_NEXT && !NoMatch(st.vars, |st.vars|, start)
    ensures Ends(st, start, end) <==> !ReachesTop(st, w) || !FromZero(st)
  {
    hide NextOf, RegularState, ReachesTop, FromZero, Pow2, Ends, NoMatch;
    var next := NextOf(st, start);
    NextOfFacts(st, w, start);
    EndsNext(st, start, end);
    if ReachesTop(st, w) && FromZero(st) {
      NeverEnds(st, w, next, end);
    } else {
      if next == Pow2(w) { OnlyTop(st, w, start); }
      EndsWithin(st, w, next, end);
    }
  }

  lemma StartBeyond(st: State, w: nat, start: nat, end: nat)
    requires RegularState(st, w) && Pow2(w) <= start < end <= NO_NEXT
    ensures Ends(st, start, end) <==> NoMatch(st.vars, |st.vars|, start) || !ReachesTop(st, w) || !FromZero(st)
  {
    hide NextOf, RegularState, ReachesTop, FromZero, Pow2, Ends, NoMatch;
    if NoMatch(st.vars, |st.vars|, start) {
      NextOfFacts(st, w, start);
      EndsNow(st, NextOf(st, start), end);
      EndsNext(st, start, end);
    } else {
      BeyondStep(st, w, start, end);
    }
  }

  // ------------------------------------------------------------ what is reached

  /** Some of the first `n` steps cover address `v`. */
  ghost predicate Reached(st: State, cur: nat, end: nat, n: nat, v: nat)
    decreases n
  {
    n > 0 && cur < end && (cur <= v < Min(NextOf(st, cur), end) || Reached(st, NextOf(st, cur), end, n - 1, v))
  }

  /** One more step, at the far end of the run. */
  lemma {:induction false} OneMore(st: State, cur: nat, end: nat, n: nat, v: nat)
    ensures var c := Cursor(st, cur, end, n);
            && Cursor(st, cur, end, n + 1) == (if c >= end then c else NextOf(st, c))
            && (Reached(st, cur, end, n + 1, v) <==>
                  Reached(st, cur, end, n, v) || (c < end && c <= v < Min(NextOf(st, c), end)))
    decreases n
  {
    hide NextOf;
    if n > 0 && cur < end { OneMore(st, NextOf(st, cur), end, n - 1, v); }
  }

  /** The search starts within reach or where nothing matches. */
  ghost predicate StartsWell(st: State, w: nat, start: nat) {
    start < Pow2(w) || NoMatch(st.vars, |st.vars|, start)
  }

  /** A run that ends has covered exactly the addresses from where it was. */
  lemma {:induction false} ReachedRange(st: State, w: nat, cur: nat, end: nat, n: nat, v: nat)
    requires RegularState(st, w) && cur <= Pow2(w) && end <= NO_NEXT && Cursor(st, cur, end, n) >= end
    requires end <= Pow2(w) || !FromZero(st) || (!ReachesTop(st, w) && cur < Pow2(w))
    ensures Reached(st, cur, end, n, v) <==> cur <= v < end
    decreases n
  {
    hide NextOf, RegularState, ReachesTop, FromZero, Pow2, NoMatch;
    if cur < end {
      var next := NextOf(st, cur);
      NextOfFacts(st, w, cur);
      if cur == Pow2(w) { TopNoMatch(st, w); }
      if next != NO_NEXT {
        if next == Pow2(w) { OnlyTop(st, w, cur); }
        ReachedRange(st, w, next, end, n - 1, v);
      }
    }
  }

  /** So, if it starts well and ends, it has covered exactly its range. */
  lemma ReachedAll(st: State, w: nat, start: nat, end: nat, n: nat, v: nat)
    requires RegularState(st, w) && end <= NO_NEXT && Cursor(st, start, end, n) >= end && StartsWell(st, w, start)
    ensures Reached(st, start, end, n, v) <==> start <= v < end
  {
    hide NextOf, RegularState, ReachesTop, FromZero, Pow2, NoMatch;
    if start < end {
      NextOfFacts(st, w, start);
      assert Ends(st, start, end);
      TerminationIff(st, w, start, end);
      if start < Pow2(w) { ReachedRange(st, w, start, end, n, v); }
    }
  }

  /** Otherwise it covers addresses before its start. */
  lemma ReachedBelow(st: State, w: nat, start: nat, end: nat) returns (n: nat, v: nat)
    requires RegularState(st, w) && start < end <= NO_NEXT && !StartsWell(st, w, start)
    ensures v < start && Reached(st, start, end, n, v)
  {
    hide NextOf, Regular, Pow2, NoMatch;
    var next := NextOf(st, start);
    NextOfFacts(st, w, start);
    BelowNoNext(w);
    NextOfFacts(st, w, next);
    if next < Pow2(w) {
      n, v := 2, next;
      assert Reached(st, next, end, 1, v);
    } else {
      BackFromTop(st, w);
      if start == next {
        assert false;
      } else if NoMatch(st.vars, |st.vars|, next) {
        n, v := 2, next;
        assert Reached(st, next, end, 1, v);
      } else {
        var third := NextOf(st, next);
        NextOfFacts(st, w, third);
        n, v := 3, third;
        assert Reached(st, third, end, 1, v);
        assert Reached(st, next, end, 2, v);
      }
    }
  }

  /** If anything matches at 2^w, the search goes back from there, to less. */
  lemma BackFromTop(st: State, w: nat)
    requires RegularState(st, w)
    ensures !NoMatch(st.vars, |st.vars|, Pow2(w)) ==> NextOf(st, Pow2(w)) < Pow2(w)
  {
    hide Regular, Matches, Start, Size, Pow2, Or;
    if !NoMatch(st.vars, |st.vars|, Pow2(w)) {
      var i :| 0 <= i < |st.vars| && Matches(st.vars[i], Pow2(w));
      LowMegabyte(w);
      NextLess(st.vars, |st.vars|, w, i);
    }
  }

  lemma {:induction false} NextLess(vars: seq<Mtrr>, n: nat, w: nat, i: nat)
    requires i < n <= |vars| && (forall j | 0 <= j < n :: Regular(vars[j], w)) && Matches(vars[i], Pow2(w))
    ensures Next(vars, n, Pow2(w)) < Pow2(w)
  {
    hide Regular, Matches, Start, Size, Pow2;
    RangeFits(vars[n - 1], w);
    if i < n - 1 { NextLess(vars, n - 1, w, i); } else { TopMatches(vars[i], w); }
    SizeLess(vars[n - 1], w);
    if Matches(vars[n - 1], Pow2(w)) { TopMatches(vars[n - 1], w); }
  }

  lemma SizeLess(m: Mtrr, w: nat)
    requires Regular(m, w)
    ensures Size(m) < Pow2(w)
  {
    hide Pow2, BitScanForward, AlignedBy;
    var k := BitScanForward(m.mask / 4096);
    Twelve();
    Pow2Sum(k, 12);
    Pow2Sum(w - 12, 12);
  }

  // ----------------------------------------------------------- a state that loops

  /** Two ranges of half the reach each. */
  function Halves(w: nat): State
    requires w >= 1
  {
    var h := Pow2(w - 1);
    State([Mtrr(6, h + 0x800), Mtrr(h + 6, h + 0x800)], 6, 0, [0, 0], [0, 0, 0, 0, 0, 0, 0, 0])
  }

  lemma LowestBit(a: nat)
    ensures BitScanForward(Pow2(a)) == a
  {
    hide Pow2, BitScanForward;
    SelfAligned(a, a);
    ForwardIsAlignment(Pow2(a), a);
    ForwardIsAlignment(Pow2(a), a + 1);
    NotAligned(a);
  }

  lemma NotAligned(a: nat)
    ensures !AlignedBy(Pow2(a), a + 1)
  {
    DivRange(Pow2(a), Pow2(a + 1), 0);
    assert Pow2(a) == Pow2(a + 1) * 0 + Pow2(a) % Pow2(a + 1);
  }

  lemma HalfRegular(w: nat, low: bool)
    requires 21 <= w <= 63
    ensures var m := Mtrr(if low then 6 else Pow2(w - 1) + 6, Pow2(w - 1) + 0x800);
            && Regular(m, w) && Size(m) == Pow2(w - 1) && Start(m) == if low then 0 else Pow2(w - 1)
  {
    hide Pow2, BitScanForward;
    var a, h := w - 13, Pow2(w - 1);
    var m := Mtrr(if low then 6 else h + 6, h + 0x800);
    Twelve();
    Pow2Sum(a, 12);
    TopPage(Pow2(a), 0x800);
    TopPage(Pow2(a), 6);
    LowestBit(a);
    Doubled(a);
    Doubled(w - 1);
    SelfAligned(a, a);
    ZeroAligned(a);
    HalfStart(Pow2(a));
    Pow2Order(12, w - 1);
  }

  lemma Doubled(a: nat)
    ensures Pow2(a + 1) == 2 * Pow2(a)
  {
  }

  lemma ZeroAligned(a: nat)
    ensures AlignedBy(0, a)
  {
    hide Pow2;
    DivModUnique(0, 0, Pow2(a));
  }

  lemma HalfStart(p: nat)
    ensures p * 4096 + 6 - (p * 4096 + 6) % 4096 == p * 4096
  {
  }

  /** With these MTRRs, for every width, the loop never gets past 2^w. */
  lemma HalvesLoop(w: nat, start: nat, end: nat)
    requires 21 <= w <= 63 && start < Pow2(w) < end <= NO_NEXT
    ensures RegularState(Halves(w), w) && !Ends(Halves(w), start, end)
  {
    hide Pow2, Regular, Start, Size, Ends;
    var st := Halves(w);
    HalfRegular(w, true);
    HalfRegular(w, false);
    Doubled(w - 1);
    assert Start(st.vars[0]) == 0;
    assert Start(st.vars[1]) + Size(st.vars[1]) == Pow2(w);
    NeverEnds(st, w, start, end);
  }
}
