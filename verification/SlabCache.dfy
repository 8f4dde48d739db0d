/** The slab cache: pages cut into elements, a free list in each page, and an ordered list of pages. */
module SlabCache {
  import opened Options
  import opened Rings

  type Page = nat
  type Addr = nat

  type Links = map<Page, Option<Page>>

  // ---------------------------------------------------------------- elements

  /** Element size, element size with link, and how many fit beside a header of `hdr` bytes. */
  datatype Layout = Layout(size: nat, buff: nat, elem: nat, hdr: nat)

  ghost predicate Fits(l: Layout) {
    1 <= l.size && l.size + 8 <= l.buff && 1 <= l.elem && l.hdr + l.elem * l.buff <= 4096
  }

  function AlignUp(x: nat, a: nat): nat
    requires a > 0
  {
    if x % a == 0 then x else x - x % a + a
  }

  /** The layout that the constructor computes; the header has five words. */
  function LayoutFor(size: nat, align: nat): Layout
    requires align > 0
  {
    var s := AlignUp(size, 8);
    var b := AlignUp(s + 8, align);
    Layout(s, b, 4056 / b, 40)
  }

  /**
   An element is large enough and aligned, a page holds as many as fit, and the layout is sound exactly if one
   does.
   */
  lemma LayoutIsBest(size: nat, align: nat, n: nat)
    requires size > 0 && align > 0
    ensures var l := LayoutFor(size, align);
            && size <= l.size && l.size + 8 <= l.buff && l.size % 8 == 0 && l.buff % align == 0
            && (n <= l.elem <==> l.hdr + n * l.buff <= 4096)
            && (Fits(l) <==> l.hdr + l.buff <= 4096)
  {
    hide AlignUp;
    var l := LayoutFor(size, align);
    AlignUpFacts(size, 8);
    AlignUpFacts(l.size + 8, align);
    MostFit(4056, l.buff, n);
    MostFit(4056, l.buff, l.elem);
    MostFit(4056, l.buff, 1);
  }

  lemma AlignUpFacts(x: nat, a: nat)
    requires a > 0
    ensures x <= AlignUp(x, a) < x + a && AlignUp(x, a) % a == 0
  {
    var k := x / a;
    assert x == k * a + x % a;
    if x % a != 0 {
      assert AlignUp(x, a) == (k + 1) * a;
      MultipleOf(k + 1, a);
    }
  }

  lemma MultipleOf(k: nat, a: nat)
    requires a > 0
    ensures (k * a) % a == 0
  {
    var q, r := (k * a) / a, (k * a) % a;
    assert k * a == q * a + r && (q + 1) * a == q * a + a;
    if k <= q { MulLe(k, q, a); } else { MulLe(q + 1, k, a); }
  }

  lemma MostFit(x: nat, b: nat, n: nat)
    requires b > 0
    ensures n <= x / b <==> n * b <= x
  {
    var q := x / b;
    assert x == q * b + x % b;
    if n <= q { MulLe(n, q, b); } else { MulLe(q + 1, n, b); assert (q + 1) * b == q * b + b; }
  }

  /** Start of element `j` of a page, counted from the end. */
  function ElemAt(l: Layout, p: Page, j: nat): Addr
    requires l.hdr + l.elem * l.buff <= 4096 && j < l.elem
  {
    Room(l, j);
    p + 4096 - (j + 1) * l.buff
  }

  lemma Room(l: Layout, j: nat)
    requires l.hdr + l.elem * l.buff <= 4096 && j < l.elem
    ensures l.hdr + (j + 1) * l.buff <= 4096
  {
    MulLe(j + 1, l.elem, l.buff);
  }

  lemma MulLe(a: nat, b: nat, c: nat)
    requires a <= b
    ensures a * c <= b * c
  {
  }

  /** The first `n` elements of a page. */
  ghost function Elems(l: Layout, p: Page, n: nat): (r: set<Addr>)
    requires l.hdr + l.elem * l.buff <= 4096 && n <= l.elem
    ensures forall e :: e in r <==> exists j: nat :: j < n && e == ElemAt(l, p, j)
  {
    if n == 0 then {} else Elems(l, p, n - 1) + {ElemAt(l, p, n - 1)}
  }

  /** Elements lie in their page, behind the header, and do not overlap. */
  lemma ElemsApart(l: Layout, p: Page, q: Page, e: Addr, f: Addr)
    requires Fits(l) && p % 4096 == 0 && q % 4096 == 0 && e in Elems(l, p, l.elem) && f in Elems(l, q, l.elem)
    ensures p + l.hdr <= e && e + l.size <= p + 4096 && e - e % 4096 == p
    ensures e != f ==> e + l.size <= f || f + l.size <= e
  {
    hide Elems, ElemAt;
    var i: nat :| i < l.elem && e == ElemAt(l, p, i);
    var j: nat :| j < l.elem && f == ElemAt(l, q, j);
    ElemInPage(l, p, i);
    ElemInPage(l, q, j);
    if p == q {
      if i < j { ElemBelow(l, p, i, j); } else if j < i { ElemBelow(l, p, j, i); }
    } else {
      OtherPage(p, q);
    }
  }

  lemma OtherPage(p: nat, q: nat)
    requires p % 4096 == 0 && q % 4096 == 0 && p != q
    ensures p + 4096 <= q || q + 4096 <= p
  {
  }

  lemma ElemInPage(l: Layout, p: Page, j: nat)
    requires Fits(l) && p % 4096 == 0 && j < l.elem
    ensures var e := ElemAt(l, p, j); p + l.hdr <= e && e + l.size <= p + 4096 && e - e % 4096 == p
  {
    Room(l, j);
    MulLe(1, j + 1, l.buff);
    PageOf(p, ElemAt(l, p, j));
  }

  lemma PageOf(p: nat, e: nat)
    requires p % 4096 == 0 && p <= e < p + 4096
    ensures e - e % 4096 == p
  {
  }

  lemma ElemBelow(l: Layout, p: Page, i: nat, j: nat)
    requires Fits(l) && i < j < l.elem
    ensures ElemAt(l, p, j) + l.size <= ElemAt(l, p, i)
  {
    Room(l, i);
    Room(l, j);
    MulLe(i + 2, j + 1, l.buff);
    assert (i + 2) * l.buff == (i + 1) * l.buff + l.buff;
  }

  // --------------------------------------------------------------- free lists

  /** The free list from `head` through the links holds `c`. */
  ghost predicate IsChain(link: map<Addr, Option<Addr>>, head: Option<Addr>, c: seq<Addr>)
    decreases |c|
  {
    if c == [] then head == None else head == Some(c[0]) && c[0] in link && IsChain(link, link[c[0]], c[1..])
  }

  lemma {:induction false} ChainFrame(link: map<Addr, Option<Addr>>, link': map<Addr, Option<Addr>>, head: Option<Addr>,
                                      c: seq<Addr>)
    requires IsChain(link, head, c) && forall e | e in c && e in link :: e in link' && link'[e] == link[e]
    ensures IsChain(link', head, c)
    decreases |c|
  {
    if c != [] { ChainFrame(link, link', link[c[0]], c[1..]); }
  }

  // --------------------------------------------------------------- list of slabs

  /** A list with null at both ends. */
  ghost predicate IsList(next: Links, prev: Links, head: Option<Page>, s: seq<Page>) {
    && NoDup(s) && head == (if s == [] then None else Some(s[0]))
    && forall i {:trigger LinkedIn(next, prev, s, i)} | 0 <= i < |s| :: LinkedIn(next, prev, s, i)
  }

  ghost predicate LinkedIn(next: Links, prev: Links, s: seq<Page>, i: int)
    requires 0 <= i < |s|
  {
    && s[i] in next && next[s[i]] == (if i + 1 < |s| then Some(s[i + 1]) else None)
    && s[i] in prev && prev[s[i]] == (if i > 0 then Some(s[i - 1]) else None)
  }

  /** `enqueue` between the nodes before and at position `i`. */
  function EnqueueNext(next: Links, x: Page, a: Option<Page>, b: Option<Page>): Links {
    if a == None then next[x := b] else next[x := b][a.value := Some(x)]
  }

  function EnqueuePrev(prev: Links, x: Page, a: Option<Page>, b: Option<Page>): Links {
    if b == None then prev[x := a] else prev[x := a][b.value := Some(x)]
  }

  function Before(s: seq<Page>, i: nat): Option<Page>
    requires i <= |s|
  {
    if i > 0 then Some(s[i - 1]) else None
  }

  function At(s: seq<Page>, i: nat): Option<Page>
    requires i <= |s|
  {
    if i < |s| then Some(s[i]) else None
  }

  lemma ListInsert(next: Links, prev: Links, head: Option<Page>, s: seq<Page>, i: nat, x: Page)
    requires IsList(next, prev, head, s) && i <= |s| && x !in s
    ensures var a, b := Before(s, i), At(s, i);
            IsList(EnqueueNext(next, x, a, b), EnqueuePrev(prev, x, a, b), if i == 0 then Some(x) else head,
                   With(s, i, x))
  {
    var a, b, s' := Before(s, i), At(s, i), With(s, i, x);
    var next', prev' := EnqueueNext(next, x, a, b), EnqueuePrev(prev, x, a, b);
    WithMembers(s, i, x);
    forall j | 0 <= j < |s'| ensures LinkedIn(next', prev', s', j) {
      if j != i {
        var k := if j < i then j else j - 1;
        assert s'[j] == s[k] && LinkedIn(next, prev, s, k);
      }
    }
  }

  /** `dequeue`. */
  function DequeueNext(next: Links, prev: Links, x: Page): Links
    requires x in next && x in prev
  {
    if prev[x] == None then next else next[prev[x].value := next[x]]
  }

  function DequeuePrev(next: Links, prev: Links, x: Page): Links
    requires x in next && x in prev
  {
    if next[x] == None then prev else prev[next[x].value := prev[x]]
  }

  lemma ListRemove(next: Links, prev: Links, head: Option<Page>, s: seq<Page>, i: nat)
    requires IsList(next, prev, head, s) && 0 < i < |s|
    ensures s[i] in next && s[i] in prev && prev[s[i]] == Some(s[i - 1])
    ensures IsList(DequeueNext(next, prev, s[i]), DequeuePrev(next, prev, s[i]), head, Without(s, i))
  {
    var x, s' := s[i], Without(s, i);
    assert LinkedIn(next, prev, s, i);
    var next', prev' := DequeueNext(next, prev, x), DequeuePrev(next, prev, x);
    WithoutMembers(s, i);
    forall j | 0 <= j < |s'| ensures LinkedIn(next', prev', s', j) {
      var k := if j < i then j else j + 1;
      assert s'[j] == s[k] && LinkedIn(next, prev, s, k);
    }
  }

  lemma ListAt(next: Links, prev: Links, head: Option<Page>, s: seq<Page>, i: nat)
    requires IsList(next, prev, head, s) && i < |s|
    ensures s[i] in next && s[i] in prev && prev[s[i]] == Before(s, i) && next[s[i]] == At(s, i + 1)
  {
    assert LinkedIn(next, prev, s, i);
  }

  // -------------------------------------------------------------------- order

  /** Only the first slab may be unused. */
  ghost predicate OneUnused(avail: map<Page, nat>, s: seq<Page>, elem: nat) {
    forall i | 1 <= i < |s| :: s[i] in avail && avail[s[i]] < elem
  }

  /**
   The first `m` slabs have free elements, the others none; if slabs have more than one element, only the first
   may be unused.
   */
  ghost predicate Ordered(avail: map<Page, nat>, s: seq<Page>, m: nat, elem: nat) {
    && m <= |s| && (forall i | 0 <= i < |s| :: s[i] in avail && avail[s[i]] <= elem)
    && (forall i | 0 <= i < m :: avail[s[i]] > 0)
    && (forall i | m <= i < |s| :: avail[s[i]] == 0)
    && (elem >= 2 ==> OneUnused(avail, s, elem))
  }

  /** A slab other than `p` is unused. */
  ghost predicate AnotherUnused(avail: map<Page, nat>, s: seq<Page>, p: Page, elem: nat) {
    exists q :: q in s && q != p && q in avail && avail[q] == elem
  }

  /** A full slab at `i` got one element back and moves behind the other slabs with free elements. */
  lemma OrderedRefill(avail: map<Page, nat>, s: seq<Page>, m: nat, elem: nat, i: nat)
    requires Ordered(avail, s, m, elem) && NoDup(s) && m <= i < |s| && elem >= 1
    ensures m <= |Without(s, i)| && Ordered(avail[s[i] := 1], With(Without(s, i), m, s[i]), m + 1, elem)
    ensures i == m ==> With(Without(s, i), m, s[i]) == s
  {
    var x, r := s[i], Without(s, i);
    var s' := With(r, m, x);
    forall j | 0 <= j < |s'| && j != m
      ensures 0 <= OldIndex(i, m, j) < |s| && OldIndex(i, m, j) != i && s'[j] == s[OldIndex(i, m, j)]
    {
      assert s'[j] == r[if j < m then j else j - 1];
    }
  }

  function OldIndex(i: int, m: int, j: int): int {
    if j < m then j else if j - 1 < i then j - 1 else j
  }

  /**
   Refilling a slab leaves at most one unused, whatever the slabs were, exactly if slabs have more than one
   element.
   */
  lemma RefillIff(elem: nat)
    requires elem >= 1
    ensures elem >= 2 <==>
            forall avail: map<Page, nat>, s: seq<Page>, m: nat, i: nat {:trigger Refilled(avail, s, m, i, elem)} ::
              Refilled(avail, s, m, i, elem)
  {
    if elem >= 2 {
      forall avail: map<Page, nat>, s: seq<Page>, m: nat, i: nat ensures Refilled(avail, s, m, i, elem) {
        if i < |s| && Ordered(avail, s, m, elem) && OneUnused(avail, s, elem) && NoDup(s) && m <= i {
          OrderedRefill(avail, s, m, elem, i);
        }
      }
    } else {
      var s, avail := [0, 4096], map[0 := 1, 4096 := 0];
      assert With(Without(s, 1), 1, s[1])[1] == 4096;
      assert !Refilled(avail, s, 1, 1, elem);
    }
  }

  /** If at most one slab is unused before full slab `i` gets an element back, so it is after. */
  ghost predicate Refilled(avail: map<Page, nat>, s: seq<Page>, m: nat, i: nat, elem: nat) {
    Ordered(avail, s, m, elem) && OneUnused(avail, s, elem) && NoDup(s) && m <= i < |s| ==>
      OneUnused(avail[s[i] := 1], With(Without(s, i), m, s[i]), elem)
  }

  /** A slab at `i` that got unused goes away. */
  lemma OrderedDrop(avail: map<Page, nat>, s: seq<Page>, m: nat, elem: nat, i: nat)
    requires Ordered(avail, s, m, elem) && NoDup(s) && 0 < i < m && elem >= 2
    ensures Ordered(avail[s[i] := elem], Without(s, i), m - 1, elem)
  {
    var x, r := s[i], Without(s, i);
    forall j | 0 <= j < |r| ensures r[j] != x && r[j] == s[if j < i then j else j + 1] { }
  }

  /** Or, if none is unused yet, to the front. */
  lemma OrderedFront(avail: map<Page, nat>, s: seq<Page>, m: nat, elem: nat, i: nat)
    requires Ordered(avail, s, m, elem) && NoDup(s) && 0 < i < m && avail[s[0]] < elem && elem >= 2
    ensures Ordered(avail[s[i] := elem], With(Without(s, i), 0, s[i]), m, elem)
  {
    var x, r := s[i], Without(s, i);
    var s' := With(r, 0, x);
    forall j | 0 < j < |s'|
      ensures s'[j] != x && s'[j] == s[if j - 1 < i then j - 1 else j] { assert s'[j] == r[j - 1]; }
  }

  /** One element fewer in the last slab with free elements. */
  lemma OrderedTake(avail: map<Page, nat>, s: seq<Page>, m: nat, elem: nat)
    requires Ordered(avail, s, m, elem) && NoDup(s) && m > 0
    ensures var x := s[m - 1]; Ordered(avail[x := avail[x] - 1], s, if avail[x] == 1 then m - 1 else m, elem)
  {
  }

  /** One element more in a slab that stays where it is. */
  lemma OrderedGive(avail: map<Page, nat>, s: seq<Page>, m: nat, elem: nat, i: nat)
    requires Ordered(avail, s, m, elem) && NoDup(s) && i < m && avail[s[i]] + 1 <= elem
    requires (i > 0 ==> avail[s[i]] + 1 < elem)
    ensures Ordered(avail[s[i] := avail[s[i]] + 1], s, m, elem)
  {
  }

  /** A fresh slab in front of full ones. */
  lemma OrderedGrow(avail: map<Page, nat>, s: seq<Page>, elem: nat, x: Page)
    requires Ordered(avail, s, 0, elem) && x !in s && elem >= 1
    ensures Ordered(avail[x := elem], With(s, 0, x), 1, elem)
  {
    var s' := With(s, 0, x);
    forall j | 0 < j < |s'| ensures s'[j] == s[j - 1] { }
  }

  // ------------------------------------------------------------------ contents

  type Chains = map<Page, seq<Addr>>

  /** The free list of slab `p` holds `avail[p]` distinct elements of the page. */
  ghost predicate ChainOf(l: Layout, link: map<Addr, Option<Addr>>, free: map<Page, Option<Addr>>, avail: map<Page,
                          nat>, chains: Chains, p: Page)
    requires l.hdr + l.elem * l.buff <= 4096
  {
    && p % 4096 == 0 && p in free && p in chains && p in avail
    && IsChain(link, free[p], chains[p]) && NoDup(chains[p]) && |chains[p]| == avail[p]
    && forall e | e in chains[p] :: e in Elems(l, p, l.elem)
  }

  ghost predicate AllChains(l: Layout, link: map<Addr, Option<Addr>>, free: map<Page, Option<Addr>>, avail: map<Page,
                            nat>, chains: Chains, s: seq<Page>)
    requires l.hdr + l.elem * l.buff <= 4096
  {
    forall p {:trigger ChainOf(l, link, free, avail, chains, p)} | p in s :: ChainOf(l, link, free, avail, chains, p)
  }

  /** `e` is an element in use. */
  ghost predicate IsLive(l: Layout, s: seq<Page>, chains: Chains, e: Addr)
    requires l.hdr + l.elem * l.buff <= 4096
  {
    exists p :: LiveIn(l, s, chains, p, e)
  }

  ghost predicate LiveIn(l: Layout, s: seq<Page>, chains: Chains, p: Page, e: Addr)
    requires l.hdr + l.elem * l.buff <= 4096
  {
    p in s && e in Elems(l, p, l.elem) && p in chains && e !in chains[p]
  }

  ghost function SetOf(c: seq<Addr>): set<Addr> {
    set e | e in c
  }

  lemma {:induction false} SetSize(c: seq<Addr>)
    requires NoDup(c)
    ensures |SetOf(c)| == |c|
  {
    if c != [] {
      var r := c[1..];
      SetSize(r);
      assert SetOf(c) == SetOf(r) + {c[0]} && c[0] !in r;
    } else {
      assert SetOf(c) == {};
    }
  }

  lemma {:induction false} ElemsSize(l: Layout, p: Page, n: nat)
    requires Fits(l) && n <= l.elem
    ensures |Elems(l, p, n)| == n
  {
    hide ElemAt, Fits, Elems;
    FitsAll(l);
    if n > 0 {
      ElemsSize(l, p, n - 1);
      ElemsStep(l, p, n);
    } else {
      ElemsNone(l, p);
    }
  }

  lemma ElemsNone(l: Layout, p: Page)
    requires Fits(l)
    ensures Elems(l, p, 0) == {}
  {
  }

  lemma ElemsStep(l: Layout, p: Page, n: nat)
    requires Fits(l) && 0 < n <= l.elem
    ensures Elems(l, p, n) == Elems(l, p, n - 1) + {ElemAt(l, p, n - 1)} && ElemAt(l, p, n - 1) !in Elems(l, p, n - 1)
  {
    hide ElemAt;
    if ElemAt(l, p, n - 1) in Elems(l, p, n - 1) {
      var j: nat :| j < n - 1 && ElemAt(l, p, n - 1) == ElemAt(l, p, j);
      ElemBelow(l, p, j, n - 1);
    }
  }

  lemma Subset(a: set<Addr>, b: set<Addr>)
    requires a <= b
    ensures |a| <= |b| && (|a| == |b| ==> a == b)
  {
    if a == b {
    } else {
      var x :| x in b && x !in a;
      SubsetLe(a, b - {x});
    }
  }

  lemma {:induction false} SubsetLe(a: set<Addr>, b: set<Addr>)
    requires a <= b
    ensures |a| <= |b|
    decreases a
  {
    if a != {} {
      var x :| x in a;
      SubsetLe(a - {x}, b - {x});
    }
  }

  /** A free list is no longer than the page has elements, and as long only if nothing is in use. */
  lemma ChainBound(l: Layout, p: Page, c: seq<Addr>)
    requires Fits(l) && NoDup(c) && forall e | e in c :: e in Elems(l, p, l.elem)
    ensures |c| <= l.elem && (|c| == l.elem ==> forall e | e in Elems(l, p, l.elem) :: e in c)
  {
    hide Elems;
    SetSize(c);
    ElemsSize(l, p, l.elem);
    Subset(SetOf(c), Elems(l, p, l.elem));
    assert forall e | e in SetOf(c) :: e in c;
  }

  lemma ChainAt(l: Layout, link: map<Addr, Option<Addr>>, free: map<Page, Option<Addr>>, avail: map<Page, nat>,
                chains: Chains, s: seq<Page>, p: Page)
    requires l.hdr + l.elem * l.buff <= 4096 && AllChains(l, link, free, avail, chains, s) && p in s
    ensures ChainOf(l, link, free, avail, chains, p)
  {
  }

  /** Changing slab `p`, and links of its elements only, keeps the others. */
  lemma OtherChains(l: Layout, link: map<Addr, Option<Addr>>, link': map<Addr, Option<Addr>>, free: map<Page,
                    Option<Addr>>, free': map<Page, Option<Addr>>, avail: map<Page, nat>, avail': map<Page, nat>,
                    chains: Chains, chains': Chains, s: seq<Page>, s': seq<Page>, p: Page)
    requires Fits(l) && AllChains(l, link, free, avail, chains, s) && p % 4096 == 0
    requires forall e | e in link && e !in Elems(l, p, l.elem) :: e in link' && link'[e] == link[e]
    requires forall q | q in s' && q != p ::
             q in s && q in free && q in free' && free'[q] == free[q] && q in avail && q in avail'
               && avail'[q] == avail[q]
                                             && q in chains && q in chains' && chains'[q] == chains[q]
    requires p in s' ==> ChainOf(l, link', free', avail', chains', p)
    ensures AllChains(l, link', free', avail', chains', s')
  {
    hide Elems, NoDup, IsChain;
    forall q | q in s' && q != p ensures ChainOf(l, link', free', avail', chains', q) {
      ChainAt(l, link, free, avail, chains, s, q);
      forall e | e in chains[q] ensures e !in Elems(l, p, l.elem) {
        if e in Elems(l, p, l.elem) {
          ElemsApart(l, p, q, e, e);
          ElemsApart(l, q, p, e, e);
        }
      }
      ChainFrame(link, link', free[q], chains[q]);
    }
  }

  /** Elements of one page are not elements of another. */
  lemma OnePage(l: Layout, p: Page, q: Page, e: Addr)
    requires Fits(l) && p % 4096 == 0 && q % 4096 == 0 && e in Elems(l, p, l.elem) && e in Elems(l, q, l.elem)
    ensures p == q
  {
    ElemsApart(l, p, q, e, e);
    ElemsApart(l, q, p, e, e);
  }

  /** Elements in use lie in their pages, behind the header, and do not overlap. */
  lemma LiveApart(l: Layout, link: map<Addr, Option<Addr>>, free: map<Page, Option<Addr>>, avail: map<Page, nat>,
                  chains: Chains, s: seq<Page>, e: Addr, f: Addr)
    requires Fits(l) && AllChains(l, link, free, avail, chains, s) && IsLive(l, s, chains, e) && IsLive(l, s, chains, f)
    ensures var p := e - e % 4096; p in s && p + l.hdr <= e && e + l.size <= p + 4096
    ensures e != f ==> e + l.size <= f || f + l.size <= e
  {
    hide Elems, NoDup, IsChain;
    var p :| LiveIn(l, s, chains, p, e);
    var q :| LiveIn(l, s, chains, q, f);
    ChainAt(l, link, free, avail, chains, s, p);
    ChainAt(l, link, free, avail, chains, s, q);
    ElemsApart(l, p, q, e, f);
  }

  // --------------------------------------------------------------------- cache

  class Cache {
    const lay: Layout
    var head: Option<Page>
    var curr: Option<Page>
    var next: Links
    var prev: Links
    var avail: map<Page, nat>
    var free: map<Page, Option<Addr>>
    var link: map<Addr, Option<Addr>>
    ghost var slabs: seq<Page>
    ghost var m: nat
    ghost var chains: Chains

    /** Slabs with free elements come first, `curr` is the last of them, and only the first may be unused. */
    ghost predicate Valid()
      reads this
    {
      && Fits(lay) && IsList(next, prev, head, slabs) && Ordered(avail, slabs, m, lay.elem) && curr == Before(slabs, m)
      && AllChains(lay, link, free, avail, chains, slabs)
    }

    constructor (l: Layout)
      requires Fits(l)
      ensures Valid() && lay == l && slabs == [] && curr == None
    {
      lay, head, curr, next, prev, avail, free, link := l, None, None, map[], map[], map[], map[], map[];
      slabs, m, chains := [], 0, map[];
    }

    /** The slab constructor: thread all elements of a fresh page, the lowest first. */
    method NewSlab(p: Page)
      requires Valid() && p !in slabs && p % 4096 == 0
      modifies this`avail, this`free, this`link, this`chains
      ensures AllChains(lay, link, free, avail, chains, slabs + [p])
      ensures p in chains && (forall e | e in Elems(lay, p, lay.elem) :: e in chains[p])
      ensures avail == old(avail)[p := lay.elem] && p in chains && chains == old(chains)[p := chains[p]]
    {
      hide IsList, Ordered, AllChains, Elems, ElemAt, IsChain;
      ghost var c := [];
      var h: Option<Addr> := None;
      NoChain(link);
      for i := 0 to lay.elem
        invariant IsChain(link, h, c) && |c| == i && FirstElems(lay, p, c)
        invariant forall e | e in old(link) && e !in Elems(lay, p, lay.elem) :: e in link && link[e] == old(link)[e]
        invariant avail == old(avail) && free == old(free) && chains == old(chains)
      {
        var e := ElemAt(lay, p, i);
        NextElem(lay, p, c);
        LongerChain(link, h, c, e);
        link := link[e := h];
        h := Some(e);
        c := [e] + c;
      }
      avail, free, chains := avail[p := lay.elem], free[p := h], chains[p := c];
      AllElems(lay, p, c);
      ChainsKnown(lay, old(link), old(free), old(avail), old(chains), slabs);
      OtherChains(lay, old(link), link, old(free), free, old(avail), avail, old(chains), chains, slabs, slabs + [p], p);
    }

    /** `Slab::alloc`: take the first free element of slab `p`. */
    method TakeElem(p: Page) returns (e: Addr)
      requires Valid() && p in slabs && p in avail && avail[p] > 0
      modifies this`avail, this`free, this`chains
      ensures AllChains(lay, link, free, avail, chains, slabs)
      ensures avail == old(avail)[p := old(avail)[p] - 1]
      ensures p in old(chains) && old(chains)[p] != [] && e == old(chains)[p][0]
      ensures chains == old(chains)[p := old(chains)[p][1..]]
    {
      hide IsList, Ordered, AllChains, Elems;
      ChainAt(lay, link, free, avail, chains, slabs, p);
      avail := avail[p := avail[p] - 1];
      e := free[p].value;
      free := free[p := link[e]];
      chains := chains[p := chains[p][1..]];
      ChainsKnown(lay, link, old(free), old(avail), old(chains), slabs);
      OtherChains(lay, link, link, old(free), free, old(avail), avail, old(chains), chains, slabs, slabs, p);
    }

    /** `Slab::free`: put an element in use back in front of the free list. */
    method GiveElem(p: Page, e: Addr)
      requires Valid() && LiveIn(lay, slabs, chains, p, e)
      modifies this`avail, this`free, this`link, this`chains
      ensures AllChains(lay, link, free, avail, chains, slabs)
      ensures p in old(avail) && p in old(chains) && old(avail)[p] < lay.elem
      ensures avail == old(avail)[p := old(avail)[p] + 1] && chains == old(chains)[p := [e] + old(chains)[p]]
    {
      hide IsList, Ordered, AllChains, Elems;
      ChainAt(lay, link, free, avail, chains, slabs, p);
      avail := avail[p := avail[p] + 1];
      LongerChain(link, free[p], chains[p], e);
      link := link[e := free[p]];
      free := free[p := Some(e)];
      chains := chains[p := [e] + chains[p]];
      ChainBound(lay, p, chains[p]);
      ChainsKnown(lay, old(link), old(free), old(avail), old(chains), slabs);
      OtherChains(lay, old(link), link, old(free), free, old(avail), avail, old(chains), chains, slabs, slabs, p);
    }

    /** `Slab::enqueue` between the neighbours `a` and `b`, at position `i` of list `s`. */
    method Enqueue(x: Page, a: Option<Page>, b: Option<Page>, ghost s: seq<Page>, ghost i: nat)
      requires IsList(next, prev, head, s) && i <= |s| && x !in s && a == Before(s, i) && b == At(s, i)
      modifies this`next, this`prev
      ensures IsList(next, prev, if i == 0 then Some(x) else head, With(s, i, x))
    {
      ListInsert(next, prev, head, s, i, x);
      if i > 0 { ListAt(next, prev, head, s, i - 1); }
      if i < |s| { ListAt(next, prev, head, s, i); }
      next, prev := next[x := b], prev[x := a];
      if b != None {
        assert old(prev)[b.value] == a;
        prev := prev[b.value := Some(x)];
      }
      if a != None {
        assert old(next)[a.value] == b;
        next := next[a.value := Some(x)];
      }
    }

    /** `Slab::dequeue`; the slab keeps its own pointers. */
    method Dequeue(x: Page, ghost s: seq<Page>, ghost i: nat)
      requires IsList(next, prev, head, s) && 0 < i < |s| && s[i] == x
      modifies this`next, this`prev
      ensures IsList(next, prev, head, Without(s, i)) && x in prev && prev[x] == Some(s[i - 1])
    {
      hide IsList;
      ListRemove(next, prev, head, s, i);
      ListAt(next, prev, head, s, i);
      ListAt(next, prev, head, s, i - 1);
      if i + 1 < |s| { ListAt(next, prev, head, s, i + 1); }
      ListDistinct(next, prev, head, s);
      var a, b := prev[x], next[x];
      if a != None {
        next := next[a.value := b];
      }
      if b != None {
        prev := prev[b.value := a];
      }
    }

    /** `grow`: a fresh slab in front. */
    method Grow(p: Page)
      requires Valid() && curr == None && p !in slabs && p % 4096 == 0
      modifies this
      ensures Valid() && slabs == With(old(slabs), 0, p) && curr == Some(p) && m == 1
      ensures forall e :: IsLive(lay, slabs, chains, e) <==> IsLive(lay, old(slabs), old(chains), e)
    {
      hide IsList, Ordered, AllChains, Elems, IsLive;
      AtFront(avail, slabs, m, lay.elem);
      NewSlab(p);
      OrderedGrow(old(avail), slabs, lay.elem, p);
      ListHead(next, prev, head, slabs);
      Enqueue(p, None, head, slabs, 0);
      FrontMembers(lay, link, free, avail, chains, slabs, p);
      LiveGrow(lay, old(chains), chains, slabs, p);
      slabs, m := With(slabs, 0, p), 1;
      head, curr := Some(p), Some(p);
    }

    /** An element not in use before; the others in use stay so. */
    method Alloc(page: Page) returns (e: Addr)
      requires Valid() && (curr == None ==> page !in slabs && page % 4096 == 0)
      modifies this
      ensures Valid() && !IsLive(lay, old(slabs), old(chains), e)
      ensures slabs == if old(curr) == None then With(old(slabs), 0, page) else old(slabs)
      ensures forall f :: IsLive(lay, slabs, chains, f) <==> IsLive(lay, old(slabs), old(chains), f) || f == e
    {
      hide IsList, Ordered, AllChains, Elems, IsLive;
      if curr == None {
        Grow(page);
      }
      var p := curr.value;
      AtCurr(next, prev, head, avail, slabs, m, lay.elem);
      assert avail[p] > 0;
      assert next[p] == None || avail[next[p].value] == 0;
      ghost var avail0, chains0, link0, free0 := avail, chains, link, free;
      e := TakeElem(p);
      ListDistinct(next, prev, head, slabs);
      OrderedTake(avail0, slabs, m, lay.elem);
      LiveTake(lay, link0, free0, avail0, chains0, slabs, p, e);
      if avail[p] == 0 {
        curr := prev[p];
        m := m - 1;
      }
    }

    /** The slab at `i` was full and has one free element now: it becomes the slab for the next allocation. */
    method Requeue(p: Page, ghost i: nat, ghost avail0: map<Page, nat>)
      requires Fits(lay) && IsList(next, prev, head, slabs) && Ordered(avail0, slabs, m, lay.elem)
      requires curr == Before(slabs, m)
      requires m <= i < |slabs| && slabs[i] == p && avail == avail0[p := 1]
      requires AllChains(lay, link, free, avail, chains, slabs)
      modifies this`next, this`prev, this`head, this`curr, this`slabs, this`m
      ensures Valid() && forall q :: q in slabs <==> q in old(slabs)
    {
      hide IsList, Ordered, AllChains, Elems, Without, With, NoDup, Fits;
      FitsAll(lay);
      ListDistinct(next, prev, head, slabs);
      ListAt(next, prev, head, slabs, i);
      OrderedRefill(avail0, slabs, m, lay.elem, i);
      BeforeFull(avail0, slabs, m, lay.elem, i);
      MovedMembers(lay, link, free, avail, chains, slabs, i, m);
      ghost var r := Without(slabs, i);
      if prev[p] != None && avail[prev[p].value] == 0 {
        Dequeue(p, slabs, i);
        SameBefore(slabs, i, m);
        ListHead(next, prev, head, r);
        if curr != None {
          ListAt(next, prev, head, r, m - 1);
          Enqueue(p, curr, next[curr.value], r, m);
        } else {
          Enqueue(p, None, head, r, m);
          head := Some(p);
        }
      }
      slabs, m := With(r, m, p), m + 1;
      curr := Some(p);
    }

    /** The slab at `i` is unused now: it goes to the front, or away if there is an unused one already. */
    method Retire(p: Page, ghost i: nat, ghost avail0: map<Page, nat>) returns (released: Option<Page>)
      requires Fits(lay) && IsList(next, prev, head, slabs) && Ordered(avail0, slabs, m, lay.elem)
      requires curr == Before(slabs, m)
      requires lay.elem >= 2 && i < m && i < |slabs| && slabs[i] == p && avail == avail0[p := lay.elem]
      requires AllChains(lay, link, free, avail, chains, slabs)
      modifies this`next, this`prev, this`head, this`curr, this`slabs, this`m
      ensures Valid()
      ensures released == None ==> forall q :: q in slabs <==> q in old(slabs)
      ensures released != None ==> released.value == p && forall q :: q in slabs <==> q in old(slabs) && q != p
      ensures released != None <==> AnotherUnused(avail0, old(slabs), p, lay.elem)
    {
      hide IsList, Ordered, AllChains, Elems, Without, With, NoDup, Fits, AnotherUnused;
      FitsAll(lay);
      ListDistinct(next, prev, head, slabs);
      ListAt(next, prev, head, slabs, i);
      ListHead(next, prev, head, slabs);
      SlabAt(avail0, slabs, m, lay.elem, i);
      if prev[p] == None {
        assert head == Some(p);
        UnusedFirst(avail0, slabs, m, lay.elem, i);
        OrderedFirst(avail0, slabs, m, lay.elem);
        return None;
      }
      CurrMoves(slabs, i, m);
      if curr == Some(p) {
        curr := prev[p];
      }
      ghost var r := Without(slabs, i);
      Dequeue(p, slabs, i);
      OnlyFirst(avail0, slabs, m, lay.elem, i);
      UnusedFirst(avail0, slabs, m, lay.elem, i);
      if avail[prev[p].value] == lay.elem || avail[head.value] == lay.elem {
        assert head != Some(p);
        OrderedDrop(avail0, slabs, m, lay.elem, i);
        DroppedMembers(lay, link, free, avail, chains, slabs, i);
        slabs, m := r, m - 1;
        return Some(p);
      }
      OrderedFront(avail0, slabs, m, lay.elem, i);
      MovedMembers(lay, link, free, avail, chains, slabs, i, 0);
      ListHead(next, prev, head, r);
      Enqueue(p, None, head, r, 0);
      head := Some(p);
      slabs := With(r, 0, p);
      return None;
    }

    /** An element in use is given back; the others in use stay so. Returns the page of a slab that went away. */
    method Free(e: Addr) returns (released: Option<Page>)
      requires Valid() && IsLive(lay, slabs, chains, e)
      modifies this
      ensures Valid()
      ensures forall f :: IsLive(lay, slabs, chains, f) <==> IsLive(lay, old(slabs), old(chains), f) && f != e
      ensures released == None ==> forall q :: q in slabs <==> q in old(slabs)
      ensures released != None ==> released.value in old(slabs) && forall q :: q in slabs <==>
              q in old(slabs) && q != released.value
      ensures released != None ==> lay.elem >= 2
      ensures var p := e - e % 4096;
              && p in old(avail)
              && (released != None <==> && 0 < old(avail)[p] && old(avail)[p] + 1 == lay.elem
                                        && AnotherUnused(old(avail), old(slabs), p, lay.elem))
    {
      hide IsList, Ordered, AllChains, Elems, IsLive, AnotherUnused;
      ghost var i;
      ghost var p0;
      p0, i := HomeOf(lay, link, free, avail, chains, slabs, e);
      var p := e - e % 4096;
      ChainAt(lay, link, free, avail, chains, slabs, p);
      SlabAt(avail, slabs, m, lay.elem, i);
      ListDistinct(next, prev, head, slabs);
      ListHead(next, prev, head, slabs);
      assert head != None;
      var wasFull := avail[p] == 0;
      GiveElem(p, e);
      if wasFull {
        Requeue(p, i, old(avail));
        released := None;
      } else if avail[p] == lay.elem {
        AllFree(lay, link, free, avail, chains, slabs, p);
        released := Retire(p, i, old(avail));
      } else {
        OrderedGive(old(avail), slabs, m, lay.elem, i);
        released := None;
      }
      LiveGive(lay, old(link), old(free), old(avail), old(chains), old(slabs), slabs, p, e);
    }
  }

  lemma FitsAll(l: Layout)
    requires Fits(l)
    ensures 1 <= l.elem && l.hdr + l.elem * l.buff <= 4096
  {
  }

  lemma NoChain(link: map<Addr, Option<Addr>>)
    ensures IsChain(link, None, [])
  {
  }

  lemma LongerChain(link: map<Addr, Option<Addr>>, h: Option<Addr>, c: seq<Addr>, e: Addr)
    requires IsChain(link, h, c) && e !in c
    ensures IsChain(link[e := h], Some(e), [e] + c)
  {
    ChainFrame(link, link[e := h], h, c);
    assert ([e] + c)[1..] == c;
  }

  /** `c` lists the first elements of the page, the last of them first. */
  ghost predicate FirstElems(l: Layout, p: Page, c: seq<Addr>)
    requires l.hdr + l.elem * l.buff <= 4096
  {
    |c| <= l.elem && forall k | 0 <= k < |c| :: c[k] == ElemAt(l, p, |c| - 1 - k)
  }

  lemma NextElem(l: Layout, p: Page, c: seq<Addr>)
    requires Fits(l) && FirstElems(l, p, c) && |c| < l.elem
    ensures var e := ElemAt(l, p, |c|); e !in c && FirstElems(l, p, [e] + c) && e in Elems(l, p, l.elem)
  {
    hide ElemAt;
    forall k | 0 <= k < |c| ensures c[k] != ElemAt(l, p, |c|) { ElemBelow(l, p, |c| - 1 - k, |c|); }
  }

  lemma AllElems(l: Layout, p: Page, c: seq<Addr>)
    requires Fits(l) && FirstElems(l, p, c) && |c| == l.elem
    ensures NoDup(c) && (forall e | e in c :: e in Elems(l, p, l.elem)) && forall e | e in Elems(l, p, l.elem) :: e in c
  {
    hide ElemAt;
    forall i, j | 0 <= i < j < |c| ensures c[i] != c[j] { ElemBelow(l, p, |c| - 1 - j, |c| - 1 - i); }
    forall e | e in Elems(l, p, l.elem) ensures e in c {
      var j: nat :| j < l.elem && e == ElemAt(l, p, j);
      assert c[|c| - 1 - j] == e;
    }
  }

  lemma ChainsKnown(l: Layout, link: map<Addr, Option<Addr>>, free: map<Page, Option<Addr>>, avail: map<Page, nat>,
                    chains: Chains, s: seq<Page>)
    requires l.hdr + l.elem * l.buff <= 4096 && AllChains(l, link, free, avail, chains, s)
    ensures forall q | q in s :: q in free && q in avail && q in chains
  {
    hide IsChain, Elems;
    forall q | q in s ensures q in free && q in avail && q in chains { ChainAt(l, link, free, avail, chains, s, q); }
  }

  lemma ListDistinct(next: Links, prev: Links, head: Option<Page>, s: seq<Page>)
    requires IsList(next, prev, head, s)
    ensures NoDup(s)
  {
  }

  lemma ListHead(next: Links, prev: Links, head: Option<Page>, s: seq<Page>)
    requires IsList(next, prev, head, s)
    ensures head == At(s, 0)
  {
  }

  lemma AtFront(avail: map<Page, nat>, s: seq<Page>, m: nat, elem: nat)
    requires Ordered(avail, s, m, elem) && Before(s, m) == None
    ensures m == 0
  {
  }

  /** The slab for the next allocation has a free element and is followed by full slabs. */
  lemma AtCurr(next: Links, prev: Links, head: Option<Page>, avail: map<Page, nat>, s: seq<Page>, m: nat, elem: nat)
    requires IsList(next, prev, head, s) && Ordered(avail, s, m, elem) && Before(s, m) != None
    ensures var p := s[m - 1];
            && p in s && p in avail && avail[p] > 0 && p in next && p in prev && prev[p] == Before(s, m - 1)
            && (next[p] != None ==> next[p].value in avail && avail[next[p].value] == 0)
  {
    ListAt(next, prev, head, s, m - 1);
  }

  lemma FrontMembers(l: Layout, link: map<Addr, Option<Addr>>, free: map<Page, Option<Addr>>, avail: map<Page, nat>,
                     chains: Chains, s: seq<Page>, p: Page)
    requires l.hdr + l.elem * l.buff <= 4096 && AllChains(l, link, free, avail, chains, s + [p])
    ensures AllChains(l, link, free, avail, chains, With(s, 0, p))
  {
    hide ChainOf;
    forall q | q in With(s, 0, p) ensures ChainOf(l, link, free, avail, chains, q) { assert q in s + [p]; }
  }

  /** In a fresh slab nothing is in use. */
  lemma LiveGrow(l: Layout, chains: Chains, chains': Chains, s: seq<Page>, p: Page)
    requires l.hdr + l.elem * l.buff <= 4096 && p !in s && p in chains' && chains' == chains[p := chains'[p]]
    requires forall e | e in Elems(l, p, l.elem) :: e in chains'[p]
    ensures forall e :: IsLive(l, With(s, 0, p), chains', e) <==> IsLive(l, s, chains, e)
  {
    hide Elems;
    forall e ensures IsLive(l, With(s, 0, p), chains', e) <==> IsLive(l, s, chains, e) {
      if q :| LiveIn(l, With(s, 0, p), chains', q, e) { assert LiveIn(l, s, chains, q, e); }
      if q :| LiveIn(l, s, chains, q, e) { assert LiveIn(l, With(s, 0, p), chains', q, e); }
    }
  }

  lemma LiveTake(l: Layout, link: map<Addr, Option<Addr>>, free: map<Page, Option<Addr>>, avail: map<Page, nat>,
                 chains: Chains, s: seq<Page>, p: Page, e: Addr)
    requires Fits(l) && AllChains(l, link, free, avail, chains, s) && p in s && p in chains && chains[p] != []
    requires e == chains[p][0]
    ensures !IsLive(l, s, chains, e)
    ensures forall f :: IsLive(l, s, chains[p := chains[p][1..]], f) <==> IsLive(l, s, chains, f) || f == e
  {
    hide Elems, IsChain;
    ChainAt(l, link, free, avail, chains, s, p);
    var chains' := chains[p := chains[p][1..]];
    assert e in chains[p] && e !in chains[p][1..];
    if q :| LiveIn(l, s, chains, q, e) {
      ChainAt(l, link, free, avail, chains, s, q);
      OnePage(l, p, q, e);
    }
    forall f ensures IsLive(l, s, chains', f) <==> IsLive(l, s, chains, f) || f == e {
      if q :| LiveIn(l, s, chains', q, f) && f != e { assert LiveIn(l, s, chains, q, f); }
      if q :| LiveIn(l, s, chains, q, f) { assert LiveIn(l, s, chains', q, f); }
      if f == e { assert LiveIn(l, s, chains', p, e); }
    }
  }

  lemma BeforeFull(avail: map<Page, nat>, s: seq<Page>, m: nat, elem: nat, i: nat)
    requires Ordered(avail, s, m, elem) && NoDup(s) && m <= i < |s|
    ensures i > 0 ==> s[i - 1] in avail && s[i - 1] != s[i] && (avail[s[i - 1]] == 0 <==> i > m)
  {
  }

  lemma SameBefore(s: seq<Page>, i: nat, m: nat)
    requires m <= i < |s|
    ensures m <= |Without(s, i)| && Before(Without(s, i), m) == Before(s, m)
  {
  }

  /** Moving a slab within the list keeps the members. */
  lemma MovedMembers(l: Layout, link: map<Addr, Option<Addr>>, free: map<Page, Option<Addr>>, avail: map<Page, nat>,
                     chains: Chains, s: seq<Page>, i: nat, k: nat)
    requires l.hdr + l.elem * l.buff <= 4096 && AllChains(l, link, free, avail, chains, s) && NoDup(s) && i < |s|
    requires k < |s|
    ensures var s' := With(Without(s, i), k, s[i]);
            s[i] !in Without(s, i) && AllChains(l, link, free, avail, chains, s') && (forall q :: q in s' <==> q in s)
              && Before(s', k + 1) == Some(s[i])
  {
    hide ChainOf;
    WithoutMembers(s, i);
    WithMembers(Without(s, i), k, s[i]);
  }

  lemma DroppedMembers(l: Layout, link: map<Addr, Option<Addr>>, free: map<Page, Option<Addr>>, avail: map<Page, nat>,
                       chains: Chains, s: seq<Page>, i: nat)
    requires l.hdr + l.elem * l.buff <= 4096 && AllChains(l, link, free, avail, chains, s) && NoDup(s) && i < |s|
    ensures AllChains(l, link, free, avail, chains, Without(s, i))
    ensures forall q :: q in Without(s, i) <==> q in s && q != s[i]
  {
    hide ChainOf;
    WithoutMembers(s, i);
  }

  lemma OrderedFirst(avail: map<Page, nat>, s: seq<Page>, m: nat, elem: nat)
    requires Ordered(avail, s, m, elem) && NoDup(s) && 0 < m && elem > 0
    ensures Ordered(avail[s[0] := elem], s, m, elem)
  {
  }

  /** Only the first slab may be unused. */
  lemma OnlyFirst(avail: map<Page, nat>, s: seq<Page>, m: nat, elem: nat, i: nat)
    requires Ordered(avail, s, m, elem) && NoDup(s) && 0 < i < m && elem >= 2
    ensures s[0] in avail && s[i - 1] in avail && s[0] != s[i] && s[i - 1] != s[i] && avail[s[0]] <= elem
    ensures (avail[s[i - 1]] == elem ==> i == 1)
  {
  }

  /** Another slab than the one at `i` is unused exactly if it is the first. */
  lemma UnusedFirst(avail: map<Page, nat>, s: seq<Page>, m: nat, elem: nat, i: nat)
    requires Ordered(avail, s, m, elem) && NoDup(s) && i < |s| && elem >= 2
    ensures s[0] in avail && (AnotherUnused(avail, s, s[i], elem) <==> i > 0 && avail[s[0]] == elem)
  {
    if i > 0 && avail[s[0]] == elem { assert s[0] in s && s[0] != s[i]; }
  }

  /** Where the slab for the next allocation stands once slab `i` has left its place. */
  lemma CurrMoves(s: seq<Page>, i: nat, m: nat)
    requires NoDup(s) && 0 < i < m <= |s|
    ensures Before(s, m) == Some(s[i]) <==> i == m - 1
    ensures var c := if i == m - 1 then Some(s[i - 1]) else Before(s, m);
            Before(Without(s, i), m - 1) == c && Before(With(Without(s, i), 0, s[i]), m) == c
  {
    var r := Without(s, i);
    assert r[m - 2] == if m - 2 < i then s[m - 2] else s[m - 1];
    assert With(r, 0, s[i])[m - 1] == r[m - 2];
  }

  /** The slab of an element in use. */
  lemma HomeOf(l: Layout, link: map<Addr, Option<Addr>>, free: map<Page, Option<Addr>>, avail: map<Page, nat>,
               chains: Chains, s: seq<Page>, e: Addr)
    returns (p: Page, i: nat)
    requires Fits(l) && AllChains(l, link, free, avail, chains, s) && IsLive(l, s, chains, e)
    ensures p == e - e % 4096 && LiveIn(l, s, chains, p, e) && i < |s| && s[i] == p
  {
    hide Elems, IsChain, NoDup;
    p :| LiveIn(l, s, chains, p, e);
    ChainAt(l, link, free, avail, chains, s, p);
    ElemsApart(l, p, p, e, e);
    i :| 0 <= i < |s| && s[i] == p;
  }

  lemma SlabAt(avail: map<Page, nat>, s: seq<Page>, m: nat, elem: nat, i: nat)
    requires Ordered(avail, s, m, elem) && i < |s|
    ensures m <= |s| && s[i] in avail && avail[s[i]] <= elem && (avail[s[i]] == 0 <==> m <= i)
  {
  }

  lemma AllFree(l: Layout, link: map<Addr, Option<Addr>>, free: map<Page, Option<Addr>>, avail: map<Page, nat>,
                chains: Chains, s: seq<Page>, p: Page)
    requires Fits(l) && AllChains(l, link, free, avail, chains, s) && p in s && p in avail && avail[p] == l.elem
    ensures p in chains && forall e | e in Elems(l, p, l.elem) :: e in chains[p]
  {
    hide Elems, IsChain;
    ChainAt(l, link, free, avail, chains, s, p);
    ChainBound(l, p, chains[p]);
  }

  /** Giving `e` back to slab `p`, which may go away if nothing in it is in use. */
  lemma LiveGive(l: Layout, link: map<Addr, Option<Addr>>, free: map<Page, Option<Addr>>, avail: map<Page, nat>,
                 chains: Chains, s: seq<Page>, s': seq<Page>, p: Page, e: Addr)
    requires Fits(l) && AllChains(l, link, free, avail, chains, s) && LiveIn(l, s, chains, p, e)
    requires forall q | q in s' :: q in s
    requires forall q | q in s && q !in s' :: q == p && forall f | f in Elems(l, p, l.elem) :: f in [e] + chains[p]
    ensures forall f :: IsLive(l, s', chains[p := [e] + chains[p]], f) <==> IsLive(l, s, chains, f) && f != e
  {
    hide Elems, IsChain;
    var chains' := chains[p := [e] + chains[p]];
    ChainAt(l, link, free, avail, chains, s, p);
    forall f ensures IsLive(l, s', chains', f) <==> IsLive(l, s, chains, f) && f != e {
      if q :| LiveIn(l, s', chains', q, f) {
        assert LiveIn(l, s, chains, q, f);
        if f == e {
          ChainAt(l, link, free, avail, chains, s, q);
          OnePage(l, p, q, e);
        }
      }
      if q :| LiveIn(l, s, chains, q, f) && f != e {
        assert LiveIn(l, s', chains', q, f);
      }
    }
  }

  // -------------------------------------------------------- one element to a slab

  /** A slab none of whose elements is in use is unused. */
  lemma NoneLive(l: Layout, link: map<Addr, Option<Addr>>, free: map<Page, Option<Addr>>, avail: map<Page, nat>,
                 chains: Chains, s: seq<Page>, p: Page)
    requires Fits(l) && AllChains(l, link, free, avail, chains, s) && p in s && forall e :: !IsLive(l, s, chains, e)
    ensures p in avail && avail[p] == l.elem
  {
    hide Elems, IsChain;
    ChainAt(l, link, free, avail, chains, s, p);
    ChainBound(l, p, chains[p]);
    forall e | e in Elems(l, p, l.elem) ensures e in chains[p] {
      assert !IsLive(l, s, chains, e);
      assert LiveIn(l, s, chains, p, e) || e in chains[p];
    }
    SetSize(chains[p]);
    ElemsSize(l, p, l.elem);
    assert SetOf(chains[p]) == Elems(l, p, l.elem);
  }

  /** If a page has one element and it is in use, no other is. */
  lemma OnlyElement(l: Layout, chains: Chains, p: Page, e: Addr, f: Addr)
    requires Fits(l) && l.elem == 1 && p % 4096 == 0 && IsLive(l, [p], chains, e) && IsLive(l, [p], chains, f)
    ensures e == f
  {
    var q :| LiveIn(l, [p], chains, q, e);
    var r :| LiveIn(l, [p], chains, r, f);
    var i: nat :| i < l.elem && e == ElemAt(l, p, i);
    var j: nat :| j < l.elem && f == ElemAt(l, p, j);
  }

  /** Two allocations and two releases, in a cache with one element to a slab, leave two unused slabs. */
  method TwoUnused() returns (c: Cache)
    ensures c.Valid() && c.lay == Layout(2048, 2056, 1, 40) && |c.slabs| == 2
    ensures (forall p | p in c.slabs :: p in c.avail && c.avail[p] == c.lay.elem)
    ensures !OneUnused(c.avail, c.slabs, c.lay.elem)
  {
    hide Elems, IsChain, AllChains, IsList, IsLive, Ordered;
    var l := Layout(2048, 2056, 1, 40);
    c := new Cache(l);
    NothingYet(l, c.chains);
    var e := c.Alloc(4096);
    assert c.slabs == [4096];
    ghost var chains := c.chains;
    var f := c.Alloc(8192);
    if c.slabs == [4096] { OnlyElement(l, c.chains, 4096, e, f); }
    assert c.slabs == [8192, 4096];
    var r := c.Free(e);
    r := c.Free(f);
    ListDistinct(c.next, c.prev, c.head, c.slabs);
    TwoMembers(c.slabs, 4096, 8192);
    NoneLive(l, c.link, c.free, c.avail, c.chains, c.slabs, 8192);
    NoneLive(l, c.link, c.free, c.avail, c.chains, c.slabs, 4096);
  }

  lemma TwoMembers(s: seq<Page>, p: Page, q: Page)
    requires NoDup(s) && p != q && forall x :: x in s <==> x == p || x == q
    ensures |s| == 2
  {
    SetSize(s);
    assert SetOf(s) == {p, q};
  }

  lemma NothingYet(l: Layout, chains: Chains)
    requires Fits(l)
    ensures forall e :: !IsLive(l, [], chains, e)
  {
  }
}
