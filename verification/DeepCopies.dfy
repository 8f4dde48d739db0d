/** `deep_copy`: which mappings the copying loop visits, and when the copy is exact. */
module DeepCopies {
  import opened Radix
  import opened Bits
  import opened PageTableModel
  import opened PageTables
  import opened MemorySpace
  import opened MemoryTypes

  function Found(s: View, v: nat): Mapping
    requires s.fmt.Valid()
  {
    Lookup(s.fmt, s.mem, s.root, v)
  }

  /** The loop's next address after `v`. */
  function Hop(s: View, v: nat): nat
    requires s.fmt.Valid()
  {
    v + Pow2(Found(s, v).order)
  }

  /** The loop from `cur` to `end` looks up a mapping, or an unmapped block, that holds `v`. */
  ghost predicate Visits(s: View, cur: nat, end: nat, v: nat)
    requires s.fmt.Valid()
    decreases end - cur
  {
    cur < end && (InWindow(Found(s, cur), v) || Visits(s, Hop(s, cur), end, v))
  }

  /** The assertion in the loop: a mapping does not stick out of the range. */
  predicate Uncut(m: Mapping, start: nat, end: nat) {
    m.attr.Present() ==> start <= m.vaddr && m.vaddr + Pow2(m.order) <= end
  }

  /** The assertion holds in every round from `cur` on. */
  ghost predicate CutFree(s: View, cur: nat, start: nat, end: nat)
    requires s.fmt.Valid()
    decreases end - cur
  {
    cur < end ==> Uncut(Found(s, cur), start, end) && CutFree(s, Hop(s, cur), start, end)
  }

  /** Everything mapped in the range is visited. */
  ghost predicate Exact(s: View, start: nat, end: nat)
    requires s.fmt.Valid()
  {
    forall v: nat | start <= v < end && s.At(v).Mapped? :: Visits(s, start, end, v)
  }

  // ------------------------------------------------------------ rounds of the loop

  lemma FoundFacts(s: View, v: nat)
    requires s.fmt.Valid()
    ensures var m := Found(s, v);
            && 12 <= m.order < s.fmt.MaxOrder() && Aligned(m) && InWindow(m, v)
            && forall w: nat | InWindow(m, w) :: Found(s, w) == m
  {
    LookupFacts(s.fmt, s.mem, s.root, v);
  }

  /** What is found beyond a block starts beyond it. */
  lemma FoundBeyond(s: View, v: nat, w: nat)
    requires s.fmt.Valid() && Found(s, v).vaddr + Pow2(Found(s, v).order) <= w
    ensures Found(s, v).vaddr + Pow2(Found(s, v).order) <= Found(s, w).vaddr
  {
    hide Pow2, Found;
    FoundFacts(s, v);
    FoundFacts(s, w);
    var m, n := Found(s, v), Found(s, w);
    if n.vaddr < m.vaddr + Pow2(m.order) { Between(m, n, w); }
  }

  /** A block that reaches from inside an aligned block to beyond it shares an address with it. */
  lemma Between(m: Mapping, n: Mapping, w: nat)
    requires n.vaddr < m.vaddr + Pow2(m.order) <= w && InWindow(n, w)
    ensures InWindow(n, m.vaddr + Pow2(m.order) - 1) && InWindow(m, m.vaddr + Pow2(m.order) - 1) && n != m
  {
    hide Pow2;
  }

  /** Later rounds visit nothing before what the next round finds. */
  lemma {:induction false} VisitsAbove(s: View, cur: nat, end: nat, v: nat)
    requires s.fmt.Valid() && Visits(s, cur, end, v)
    ensures Found(s, cur).vaddr <= v
    decreases end - cur
  {
    hide Pow2, Found;
    if !InWindow(Found(s, cur), v) {
      FoundFacts(s, cur);
      FoundBeyond(s, cur, Hop(s, cur));
      VisitsAbove(s, Hop(s, cur), end, v);
    }
  }

  /** A block is visited once. */
  lemma NotAgain(s: View, cur: nat, end: nat, v: nat)
    requires s.fmt.Valid() && InWindow(Found(s, cur), v)
    ensures !Visits(s, Hop(s, cur), end, v)
  {
    hide Pow2, Found;
    FoundFacts(s, cur);
    FoundBeyond(s, cur, Hop(s, cur));
    if Visits(s, Hop(s, cur), end, v) { VisitsAbove(s, Hop(s, cur), end, v); }
  }

  /** The part of the copy that is done when the loop stands at `cur`. */
  ghost predicate CopiedTo(s: View, d: View, start: nat, cur: nat, end: nat)
    requires s.fmt.Valid() && d.fmt.Valid()
  {
    forall v: nat | v < d.fmt.Limit() ::
      && d.At(v) == (if Visits(s, start, end, v) && !Visits(s, cur, end, v) then s.At(v) else Unmapped)
      && (Visits(s, cur, end, v) ==> Visits(s, start, end, v))
  }

  lemma CopyStep(s: View, d: View, d': View, start: nat, cur: nat, end: nat)
    requires s.fmt.Valid() && d.fmt == s.fmt == d'.fmt && d'.root == d.root && cur < end
    requires CopiedTo(s, d, start, cur, end)
    requires if Found(s, cur).attr.Present() then Updated(d.fmt, d.root, d.mem, d'.mem, Found(s, cur))
             else d'.mem == d.mem
    ensures CopiedTo(s, d', start, Hop(s, cur), end)
  {
    hide Pow2, Found, Lookup, Span;
    FoundFacts(s, cur);
    forall v: nat | v < d'.fmt.Limit()
      ensures d'.At(v) == (if Visits(s, start, end, v) && !Visits(s, Hop(s, cur), end, v) then s.At(v) else Unmapped)
      ensures Visits(s, Hop(s, cur), end, v) ==> Visits(s, start, end, v)
    {
      VisitsStep(s, cur, end, v);
      if InWindow(Found(s, cur), v) {
        NotAgain(s, cur, end, v);
        SourceMeans(s, cur, v);
      }
    }
  }

  lemma VisitsStep(s: View, cur: nat, end: nat, v: nat)
    requires s.fmt.Valid() && cur < end
    ensures Visits(s, cur, end, v) <==> InWindow(Found(s, cur), v) || Visits(s, Hop(s, cur), end, v)
  {
  }

  lemma SourceMeans(s: View, cur: nat, v: nat)
    requires s.fmt.Valid() && InWindow(Found(s, cur), v)
    ensures s.At(v) == Meaning(Found(s, cur), v)
  {
    hide Pow2;
    FoundFacts(s, cur);
  }

  lemma CopyStart(s: View, d: View, places: Places, start: nat, end: nat)
    requires s.fmt.Valid() && d.fmt.Valid() && places.Keys == {d.root}
    requires forall v: nat | v < d.fmt.Limit() :: d.At(v) == Unmapped
    ensures CopiedTo(s, d, start, start, end) && Populated(d.fmt, d.mem, d.root, places)
  {
    hide Translate;
    assert forall q | q in places :: q in places.Keys;
  }

  lemma CopyClear(s: View, d: View, start: nat, cur: nat, end: nat)
    requires s.fmt.Valid() && d.fmt.Valid() && CopiedTo(s, d, start, cur, end) && cur < end
    ensures Clear(d.fmt, d.mem, d.root, Found(s, cur))
  {
    hide Translate, Found, Pow2;
    forall v: nat | v < d.fmt.Limit() && InWindow(Found(s, cur), v)
      ensures d.At(v) == Unmapped { VisitsStep(s, cur, end, v); }
  }

  /** No table but the root is empty. */
  ghost predicate Populated(f: Format, mem: Memory, root: Page, places: Places)
    requires f.Valid()
  {
    forall q | q in places && q != root :: InUse(f, mem, root, places[q])
  }

  ghost predicate InUse(f: Format, mem: Memory, root: Page, pl: Place)
    requires f.Valid()
  {
    exists v: nat :: v < f.Limit() && Covers(pl, v) && Translate(f, mem, root, v).Mapped?
  }

  /** The window of `m` is unmapped. */
  ghost predicate Clear(f: Format, mem: Memory, root: Page, m: Mapping)
    requires f.Valid()
  {
    forall v: nat | v < f.Limit() && InWindow(m, v) :: Translate(f, mem, root, v) == Unmapped
  }

  /** Mapping into a clear window frees nothing, asks for no flush and leaves no table empty. */
  lemma ClearUpdate(f: Format, root: Page, m0: Memory, pl0: Places, m1: Memory, pl1: Places, m: Mapping,
                    freed: seq<Page>, now: bool)
    requires f.Valid() && Clear(f, m0, root, m) && Populated(f, m0, root, pl0) && root in pl1 && root in pl0
    requires m.attr.Present()
    requires root !in freed && m.vaddr + Pow2(m.order) <= f.Limit()
    requires Updated(f, root, m0, m1, m) && Relocated(pl0, pl1, m, freed)
    requires FlushSound(f, root, m0, m1, m, false, now, freed)
    ensures freed == [] && !now && Populated(f, m1, root, pl1)
  {
    hide Translate, FlushCovers, Covers;
    assert freed == [] || freed[0] in freed;
    if freed != [] { NotFreed(f, root, m0, pl0, m, freed[0]); }
    forall q | q in pl1 && q != root ensures InUse(f, m1, root, pl1[q]) {
      if q in pl0 {
        assert InUse(f, m0, root, pl0[q]);
        var v: nat :| v < f.Limit() && Covers(pl0[q], v) && Translate(f, m0, root, v).Mapped?;
        assert Translate(f, m1, root, v).Mapped?;
      } else {
        var v: nat :| InWindow(m, v) && Covers(pl1[q], v);
        assert Translate(f, m1, root, v) == Meaning(m, v);
      }
    }
  }

  /** A table in use reaches beyond a clear window. */
  lemma NotFreed(f: Format, root: Page, m0: Memory, pl0: Places, m: Mapping, q: Page)
    requires f.Valid() && Clear(f, m0, root, m) && Populated(f, m0, root, pl0) && q in pl0 && q != root
    ensures !AllIn(pl0[q], m)
  {
    assert InUse(f, m0, root, pl0[q]);
    var v: nat :| v < f.Limit() && Covers(pl0[q], v) && Translate(f, m0, root, v).Mapped?;
    assert !InWindow(m, v);
  }

  lemma FitsLimit(f: Format, m: Mapping)
    requires f.Valid() && Aligned(m) && m.order < f.MaxOrder() && m.vaddr < f.Limit()
    ensures m.vaddr + Pow2(m.order) <= f.Limit()
  {
    hide Pow2, Span;
    SpanIsPow2(f.levels);
    EndFits(m.vaddr, m.order, f.MaxOrder());
  }

  /** The root is never freed: it covers everything, and the window is smaller. */
  lemma RootStays(f: Format, m0: Memory, pl0: Places, m1: Memory, root: Page, pl1: Places, m: Mapping, freed: seq<Page>)
    requires Shape(f, m0, root, pl0) && Shape(f, m1, root, pl1) && Relocated(pl0, pl1, m, freed) && Aligned(m)
    requires m.order < f.MaxOrder()
    ensures root in pl0 && root in pl1 && root !in freed
  {
    hide Pow2, Span;
    if root in freed {
      RootBlock(f.levels, 0);
      RootBlock(f.levels, f.Limit() - 1);
      SpanIsPow2(f.levels);
      assert Covers(pl0[root], 0) && Covers(pl0[root], f.Limit() - 1);
      Smaller(m.order, f.MaxOrder());
    }
  }

  lemma Smaller(a: nat, b: nat)
    requires a < b
    ensures Pow2(a) < Pow2(b)
  {
    Pow2Order(b, a);
  }

  /** How a copy ends: done, stopped by the assertion in the loop, or out of memory. */
  datatype Ending = Copied | Asserts | NoMemory

  /** `dst` holds exactly the mappings of `src` that the loop visits. */
  ghost predicate CopyOfVisited(s: View, d: View, start: nat, end: nat)
    requires s.fmt.Valid() && d.fmt.Valid()
  {
    forall v: nat | v < d.fmt.Limit() :: d.At(v) == if Visits(s, start, end, v) then s.At(v) else Unmapped
  }

  /** `dst` holds exactly the part `start .. end` of `src`. */
  ghost predicate CopyOf(s: View, d: View, start: nat, end: nat)
    requires s.fmt.Valid() && d.fmt.Valid()
  {
    forall v: nat | v < d.fmt.Limit() :: d.At(v) == if start <= v < end then s.At(v) else Unmapped
  }

  /**
   `deep_copy` into an empty table. It copies exactly the mappings it visits; the assertion in the loop fires exactly
   if one of them sticks out of the range, and the one at the end, that no flush is due, holds.
   */
  method DeepCopy(src: PageTable, dst: PageTable, c: Cleanup, start: nat, end: nat) returns (r: Ending)
    requires src != dst && src.fmt.Valid() && dst.Valid() && dst.fmt == src.fmt && dst.places.Keys == {dst.root}
    requires !c.flush
    requires (forall v: nat | v < dst.fmt.Limit() :: Now(dst).At(v) == Unmapped) && end <= src.fmt.Limit()
    modifies dst, dst.pool, c
    ensures r.Copied? ==> dst.Valid() && !c.flush && c.pages == old(c.pages)
    ensures r.Copied? ==> CutFree(Now(src), start, start, end) && CopyOfVisited(Now(src), Now(dst), start, end)
    ensures r.Asserts? ==> !CutFree(Now(src), start, start, end)
    ensures r.NoMemory? ==> dst.pool.avail == [] && Starved(dst.fmt, dst.mem, dst.root, start, end)
  {
    hide WalkNeed, FillNeed, Short, Starved, StarvedBy, Lookup, Translate, CopiedTo, Updated, Shape, Distinct, Pow2,
         Rebuilt, FlushSound, PageTableModel.Between, Untouched, Relocated, Span, Populated, Aligned, CutFree, Found,
         Visits, Uncut, Clear;
    ghost var s := Now(src);
    var vaddr := start;
    CopyStart(s, Now(dst), dst.places, start, end);
    while vaddr < end
      invariant start <= vaddr && dst.Valid() && !c.flush && c.pages == old(c.pages)
      invariant CopiedTo(s, Now(dst), start, vaddr, end) && Populated(dst.fmt, dst.mem, dst.root, dst.places)
      invariant CutFree(s, start, start, end) <==> CutFree(s, vaddr, start, end)
    {
      var map' := Lookup(src.fmt, src.mem, src.root, vaddr);
      ghost var d := Now(dst);
      FoundIs(s, vaddr);
      FoundFacts(s, vaddr);
      CutStep(s, vaddr, start, end);
      if map'.attr.Present() {
        if !Uncut(map', start, end) {
          return Ending.Asserts;
        }
        ghost var pl := dst.places;
        CopyClear(s, d, start, vaddr, end);
        UncutBelow(s, vaddr, start, end);
        var o, freed, taken := dst.Update(c, map');
        if !o.Ok? {
          UncutInside(map', start, end);
          StarvedFrom(dst.fmt, pl, dst.mem, dst.root, map', o, start, end);
          return Ending.NoMemory;
        }
        RootStays(dst.fmt, d.mem, pl, dst.mem, dst.root, dst.places, map', freed);
        FitsLimit(dst.fmt, map');
        ClearUpdate(dst.fmt, dst.root, d.mem, pl, dst.mem, dst.places, map', freed, c.flush);
      }
      CopyStep(s, d, Now(dst), start, vaddr, end);
      vaddr := vaddr + Pow2(map'.order);
    }
    assert !c.flush;
    CopyEnd(s, Now(dst), start, vaddr, end);
    return Copied;
  }

  lemma UncutInside(m: Mapping, start: nat, end: nat)
    requires Uncut(m, start, end) && m.attr.Present()
    ensures start <= m.vaddr && m.vaddr + Pow2(m.order) <= end
  {
  }

  lemma FoundIs(s: View, v: nat)
    requires s.fmt.Valid()
    ensures Found(s, v) == Lookup(s.fmt, s.mem, s.root, v)
  {
  }

  lemma CutStep(s: View, cur: nat, start: nat, end: nat)
    requires s.fmt.Valid() && cur < end
    ensures CutFree(s, cur, start, end) <==> Uncut(Found(s, cur), start, end) && CutFree(s, Hop(s, cur), start, end)
    ensures !Found(s, cur).attr.Present() ==> Uncut(Found(s, cur), start, end)
  {
  }

  lemma UncutBelow(s: View, cur: nat, start: nat, end: nat)
    requires s.fmt.Valid() && cur < end <= s.fmt.Limit()
    ensures Found(s, cur).vaddr < s.fmt.Limit()
  {
    hide Pow2, Found;
    FoundFacts(s, cur);
  }

  lemma CopyEnd(s: View, d: View, start: nat, cur: nat, end: nat)
    requires s.fmt.Valid() && d.fmt.Valid() && CopiedTo(s, d, start, cur, end) && cur >= end
    ensures CutFree(s, cur, start, end) && CopyOfVisited(s, d, start, end)
  {
    hide Translate, Found;
  }

  // ------------------------------------------------------------------ exactness

  /** What is visited of a range without cut mappings, and mapped, lies in the range. */
  lemma {:induction false} VisitedInside(s: View, cur: nat, start: nat, end: nat, v: nat)
    requires s.fmt.Valid() && CutFree(s, cur, start, end) && Visits(s, cur, end, v) && s.At(v).Mapped?
    ensures start <= v < end
    decreases end - cur
  {
    hide Pow2, Found, Translate;
    if InWindow(Found(s, cur), v) {
      SourceMeans(s, cur, v);
    } else {
      VisitedInside(s, Hop(s, cur), start, end, v);
    }
  }

  /**
   A finished copy agrees with the source on the range, and maps nothing else, exactly if everything mapped is
   visited.
   */
  lemma CopyExact(s: View, d: View, start: nat, end: nat)
    requires s.fmt.Valid() && d.fmt == s.fmt && end <= s.fmt.Limit() && CutFree(s, start, start, end)
    requires CopyOfVisited(s, d, start, end)
    ensures CopyOf(s, d, start, end) <==> Exact(s, start, end)
  {
    hide Translate, Found, CutFree, Span;
    forall v: nat | v < s.fmt.Limit() && Visits(s, start, end, v) && s.At(v).Mapped? ensures start <= v < end {
      VisitedInside(s, start, start, end, v);
    }
    if CopyOf(s, d, start, end) {
      forall v: nat | start <= v < end && s.At(v).Mapped? ensures Visits(s, start, end, v) {
        assert d.At(v) == s.At(v);
      }
    }
  }

  /** Nothing that a hop passes over is mapped. */
  ghost predicate SkipFree(s: View, cur: nat, end: nat)
    requires s.fmt.Valid()
    decreases end - cur
  {
    cur < end ==> NothingSkipped(s, cur, end) && SkipFree(s, Hop(s, cur), end)
  }

  ghost predicate NothingSkipped(s: View, cur: nat, end: nat)
    requires s.fmt.Valid()
  {
    var m, next := Found(s, cur), Hop(s, cur);
    forall v: nat | m.vaddr + Pow2(m.order) <= v < (if next < end then Found(s, next).vaddr else end) ::
      !s.At(v).Mapped?
  }

  /** Exactly then everything mapped is visited. */
  lemma {:induction false} SkipFreeIff(s: View, cur: nat, end: nat)
    requires s.fmt.Valid() && cur < end
    ensures SkipFree(s, cur, end) <==>
            forall v: nat | Found(s, cur).vaddr <= v < end && s.At(v).Mapped? :: Visits(s, cur, end, v)
    decreases end - cur
  {
    hide Pow2, Found, Translate;
    var m, next := Found(s, cur), Hop(s, cur);
    FoundFacts(s, cur);
    FoundFacts(s, next);
    FoundBeyond(s, cur, next);
    if next < end { SkipFreeIff(s, next, end); }
    if SkipFree(s, cur, end) {
      forall v: nat | m.vaddr <= v < end && s.At(v).Mapped? ensures Visits(s, cur, end, v) { Covered(s, cur, end, v); }
    }
    if forall v: nat | m.vaddr <= v < end && s.At(v).Mapped? :: Visits(s, cur, end, v) {
      forall v: nat | m.vaddr + Pow2(m.order) <= v < (if next < end then Found(s, next).vaddr else end)
        ensures !s.At(v).Mapped?
      {
        NotVisited(s, cur, end, v);
      }
      forall v: nat | next < end && Found(s, next).vaddr <= v < end && s.At(v).Mapped? ensures Visits(s, next, end, v) {
        VisitsStep(s, cur, end, v);
      }
    }
  }

  lemma Covered(s: View, cur: nat, end: nat, v: nat)
    requires s.fmt.Valid() && cur < end && NothingSkipped(s, cur, end) && Found(s, cur).vaddr <= v < end
    requires s.At(v).Mapped?
    requires Hop(s, cur) < end ==>
               forall u: nat | Found(s, Hop(s, cur)).vaddr <= u < end && s.At(u).Mapped? ::
                 Visits(s, Hop(s, cur), end, u)
    ensures Visits(s, cur, end, v)
  {
    hide Pow2, Found, Translate;
    VisitsStep(s, cur, end, v);
  }

  lemma NotVisited(s: View, cur: nat, end: nat, v: nat)
    requires s.fmt.Valid() && cur < end
    requires Found(s, cur).vaddr + Pow2(Found(s, cur).order) <=
             v < (if Hop(s, cur) < end then Found(s, Hop(s, cur)).vaddr else end)
    ensures !Visits(s, cur, end, v)
  {
    hide Pow2, Found;
    VisitsStep(s, cur, end, v);
    if Visits(s, Hop(s, cur), end, v) { VisitsAbove(s, Hop(s, cur), end, v); }
  }

  /** A mapping, or an unmapped block, starts at `v`. */
  ghost predicate Boundary(s: View, v: nat)
    requires s.fmt.Valid()
  {
    Found(s, v).vaddr == v
  }

  /** A mapping reaches over `end`. */
  ghost predicate CutsAt(s: View, end: nat)
    requires s.fmt.Valid()
  {
    Found(s, end).attr.Present() && Found(s, end).vaddr < end
  }

  /** From a boundary everything is visited, and the assertion fires exactly if a mapping reaches over the end. */
  lemma {:induction false} FromBoundary(s: View, cur: nat, start: nat, end: nat)
    requires s.fmt.Valid() && Boundary(s, cur) && start <= cur < end
    ensures SkipFree(s, cur, end) && (CutFree(s, cur, start, end) <==> !CutsAt(s, end))
    decreases end - cur
  {
    hide Pow2, Found, Translate;
    var m, next := Found(s, cur), Hop(s, cur);
    FoundFacts(s, cur);
    FoundFacts(s, next);
    FoundBeyond(s, cur, next);
    CutStep(s, cur, start, end);
    if next < end {
      FromBoundary(s, next, start, end);
    } else if end < next {
      assert Found(s, end) == m;
    } else {
      assert !CutsAt(s, end);
    }
  }

  /** When the assertion holds and the copy is exact, for every range. */
  lemma DeepCopyIff(s: View, start: nat, end: nat)
    requires s.fmt.Valid() && start < end
    ensures CutFree(s, start, start, end) && Exact(s, start, end) <==>
            CutFree(s, start, start, end) && SkipFree(s, start, end)
    ensures Boundary(s, start) ==> (CutFree(s, start, start, end) && Exact(s, start, end) <==> !CutsAt(s, end))
    ensures !Boundary(s, start) && Found(s, start).attr.Present() ==> !CutFree(s, start, start, end)
  {
    hide Pow2, Found, Translate, SkipFree;
    FoundFacts(s, start);
    SkipFreeIff(s, start, end);
    if Boundary(s, start) { FromBoundary(s, start, start, end); }
    CutStep(s, start, start, end);
    if !Found(s, start).attr.Present() {
      forall v: nat | Found(s, start).vaddr <= v < start ensures !s.At(v).Mapped? { SourceMeans(s, start, v); }
    }
  }

  // ------------------------------------------------------------------- an input

  /** Two levels: nothing below 2 MiB, one page at 2 MiB. */
  function OnePage(): View {
    var none := Hpt(false, false, false, false, false, false, false, 0, false, false);
    var all := none.(p := true, w := true, u := true);
    var empty := Entry(0, none, false);
    View(Format(2, 1, none, all), 0,
         map[0 := seq(512, i => if i == 1 then Entry(1, all, false) else empty),
             1 := seq(512, i => if i == 0 then Entry(0x5000, all, false) else empty)])
  }

  lemma Indices()
    ensures Index(1, 0x1000) == 0 && Index(1, 0x200000) == 1 && Index(0, 0x200000) == 0 && Index(1, 0x201000) == 1
    ensures Index(0, 0x201000) == 1 && Offset(1, 0x1000) == 0x1000 && Offset(0, 0x200000) == 0
    ensures Offset(0, 0x201000) == 0
    ensures Offset(1, 0) == 0 && Offset(0, 0x5000) == 0
  {
  }

  lemma WalkEnds(f: Format, mem: Memory, p: Page, l: nat, v: nat)
    requires f.IsLeaf(l, Read(f, mem, p, Index(l, v)))
    ensures Walk(f, mem, p, l, v) == LeafMapping(l, Read(f, mem, p, Index(l, v)), v)
  {
  }

  lemma WalkOn(f: Format, mem: Memory, p: Page, l: nat, v: nat)
    requires !f.IsLeaf(l, Read(f, mem, p, Index(l, v)))
    ensures Walk(f, mem, p, l, v) == Walk(f, mem, Read(f, mem, p, Index(l, v)).frame, l - 1, v)
  {
  }

  lemma OnePageReads()
    ensures var s := OnePage();
            && s.fmt.Valid() && s.fmt.levels == 2 && s.root == 0
            && s.fmt.IsLeaf(1, Read(s.fmt, s.mem, 0, 0)) && !Read(s.fmt, s.mem, 0, 0).attr.Present()
            && !s.fmt.IsLeaf(1, Read(s.fmt, s.mem, 0, 1)) && Read(s.fmt, s.mem, 0, 1).frame == 1
            && Read(s.fmt, s.mem, 1, 0).attr.Present()
  {
  }

  lemma OnePageFinds()
    ensures var s := OnePage();
            && s.fmt.Valid() && Found(s, 0x1000).vaddr == 0 && Found(s, 0x1000).order == 21
            && !Found(s, 0x1000).attr.Present()
            && Found(s, 0x200000).vaddr == 0x200000 && Found(s, 0x200000).attr.Present()
            && Found(s, 0x201000).vaddr == 0x201000
  {
    hide OnePage, Read, Index, Offset, Walk;
    var s := OnePage();
    OnePageReads();
    Indices();
    WalkEnds(s.fmt, s.mem, 0, 1, 0x1000);
    WalkOn(s.fmt, s.mem, 0, 1, 0x200000);
    WalkEnds(s.fmt, s.mem, 1, 0, 0x200000);
    WalkOn(s.fmt, s.mem, 0, 1, 0x201000);
    WalkEnds(s.fmt, s.mem, 1, 0, 0x201000);
  }

  /**
   From 0x1000, inside the unmapped block, the loop hops to 0x201000 and misses the page at 0x200000; no assertion
   fires.
   */
  lemma MissesPage()
    ensures var s := OnePage();
            && s.fmt.Valid() && Hop(s, 0x1000) == 0x201000 && CutFree(s, 0x1000, 0x1000, 0x201000)
            && s.At(0x200000).Mapped? && !Exact(s, 0x1000, 0x201000)
  {
    hide Found, OnePage;
    var s := OnePage();
    OnePageFinds();
    TwentyOne();
    FoundFacts(s, 0x200000);
    SourceMeans(s, 0x200000, 0x200000);
    assert !Visits(s, 0x201000, 0x201000, 0x200000);
    VisitsStep(s, 0x1000, 0x201000, 0x200000);
  }
}
