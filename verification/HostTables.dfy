/** Filling the kernel's page table with physical memory, each page with its memory type. */
module HostTables {
  import opened Radix
  import opened Bits
  import opened PageTableModel
  import opened PageTables
  import opened MemorySpace
  import opened MemoryTypes

  // ------------------------------------------------------------- typed ranges

  /** Address `v` mapped to itself with attributes `a`. */
  function Identity(a: Attr, v: nat): Translation {
    if a.Present() then Mapped(v, a) else Unmapped
  }

  /** `start .. end` is mapped to itself with `a`; all else is as before. */
  ghost predicate Typed(f: Format, root: Page, m0: Memory, m1: Memory, start: nat, end: nat, a: Attr)
    requires f.Valid()
  {
    forall v: nat | v < f.Limit() ::
      Translate(f, m1, root, v) == if start <= v < end then Identity(a, v) else Translate(f, m0, root, v)
  }

  /** The order chosen for the block at `cur`. */
  lemma TopOrder(f: Format, cur: nat, end: nat)
    requires f.Valid() && cur % 4096 == 0 && end % 4096 == 0 && cur < end <= f.Limit() && (cur > 0 || end < f.Limit())
    ensures var o := Min(f.MaxOrder(), Bits.MaxOrder(cur, end - cur));
            12 <= o < f.MaxOrder() && cur % Pow2(o) == 0 && cur + Pow2(o) <= end && Pow2(o) % 4096 == 0
  {
    hide Pow2, BitScanForward, BitScanReverse, Span;
    var size := end - cur;
    var r, m := BitScanReverse(size), f.MaxOrder();
    PagesIn(r, size);
    SpanIsPow2(f.levels);
    if cur > 0 { ForwardIsAlignment(cur, 12); Twelve(); }
    var o := Min(m, Bits.MaxOrder(cur, size));
    Pow2Order(o, r);
    if cur > 0 { ForwardIsAlignment(cur, o); } else { DivModUnique(0, 0, Pow2(o)); }
    Twelve();
    SelfAligned(12, o);
    if o == m { Pow2Order(m, r); }
  }

  /** What the loop needs of the next block. */
  lemma NextBlock(f: Format, cur: nat, end: nat, a: Attr)
    requires f.Valid() && cur % 4096 == 0 && end % 4096 == 0 && cur < end <= f.Limit() && (cur > 0 || end < f.Limit())
    ensures var o := Min(f.MaxOrder(), Bits.MaxOrder(cur, end - cur));
            && 12 <= o < f.MaxOrder() && Aligned(Mapping(cur, cur, a, o)) && cur + Pow2(o) <= end
            && (cur + Pow2(o)) % 4096 == 0
            && cur < cur + Pow2(o)
  {
    hide Pow2, Bits.MaxOrder, Span;
    TopOrder(f, cur, end);
    PagesOn(cur, Pow2(Min(f.MaxOrder(), Bits.MaxOrder(cur, end - cur))));
  }

  lemma PagesOn(cur: nat, n: nat)
    requires cur % 4096 == 0 && n % 4096 == 0
    ensures (cur + n) % 4096 == 0
  {
  }

  lemma PagesIn(r: nat, size: nat)
    requires size >= 4096 && Pow2(r) <= size < 2 * Pow2(r)
    ensures r >= 12
  {
    hide Pow2;
    Twelve();
    if r < 12 { Pow2Order(r, 11); Eleven(); }
  }

  lemma Eleven()
    ensures Pow2(11) == 2048
  {
    Twelve();
  }

  lemma TypedStep(f: Format, root: Page, m0: Memory, m1: Memory, m2: Memory, start: nat, cur: nat, a: Attr, o: nat)
    requires f.Valid() && start <= cur && Typed(f, root, m0, m1, start, cur, a)
    requires Updated(f, root, m1, m2, Mapping(cur, cur, a, o))
    ensures Typed(f, root, m0, m2, start, cur + Pow2(o), a)
  {
    hide Pow2;
  }

  lemma TypedNone(f: Format, root: Page, m: Memory, start: nat, a: Attr)
    requires f.Valid()
    ensures Typed(f, root, m, m, start, start, a)
  {
  }

  lemma TypedEmpty(f: Format, root: Page, m0: Memory, m1: Memory, start: nat, cur: nat, end: nat, a: Attr)
    requires f.Valid() && Typed(f, root, m0, m1, start, cur, a) && (cur == end || cur == start >= end)
    ensures Typed(f, root, m0, m1, start, end, a)
  {
  }

  /** `map_typed_range`: map physical memory to itself in the largest blocks that fit. */
  method MapTypedRange(hpt: PageTable, start: nat, end: nat, attr: Attr) returns (ok: bool)
    requires hpt.Valid() && start % 4096 == 0 && end % 4096 == 0 && end <= hpt.fmt.Limit()
    requires (start > 0 || end < hpt.fmt.Limit())
    modifies hpt, hpt.pool
    ensures ok ==> hpt.Valid() && Typed(hpt.fmt, hpt.root, old(hpt.mem), hpt.mem, start, end, attr)
    ensures !ok ==> hpt.fmt.Valid() && hpt.pool.avail == [] && Starved(hpt.fmt, hpt.mem, hpt.root, start, end)
  {
    hide Typed, Updated, Shape, Distinct, Pow2, Rebuilt, FlushSound, Between, Untouched, Relocated, Span,
         Bits.MaxOrder, Aligned, Min, WalkNeed, FillNeed, Lookup, Short, Starved;
    var cur := start;
    FormatOk(hpt.fmt, hpt.mem, hpt.root, hpt.places);
    TypedNone(hpt.fmt, hpt.root, hpt.mem, start, attr);
    while cur < end
      invariant start <= cur && (cur <= end || cur == start) && cur % 4096 == 0 && hpt.Valid()
      invariant Typed(hpt.fmt, hpt.root, old(hpt.mem), hpt.mem, start, cur, attr)
    {
      NextBlock(hpt.fmt, cur, end, attr);
      var order := Min(hpt.fmt.MaxOrder(), Bits.MaxOrder(cur, end - cur));
      assert order >= 12;
      var c := new Cleanup();
      ghost var mem, places := hpt.mem, hpt.places;
      var r, freed, taken := hpt.Update(c, Mapping(cur, cur, attr, order));
      if !r.Ok? {
        StarvedFrom(hpt.fmt, places, hpt.mem, hpt.root, Mapping(cur, cur, attr, order), r, start, end);
        return false;
      }
      TypedStep(hpt.fmt, hpt.root, old(hpt.mem), mem, hpt.mem, start, cur, attr, order);
      cur := cur + Pow2(order);
    }
    TypedEmpty(hpt.fmt, hpt.root, old(hpt.mem), hpt.mem, start, cur, end, attr);
    ok := true;
  }

  lemma StarvedWider(f: Format, mem: Memory, root: Page, lo: nat, hi: nat, lo': nat, hi': nat)
    requires f.Valid() && Starved(f, mem, root, lo, hi) && lo' <= lo && hi <= hi'
    ensures Starved(f, mem, root, lo', hi')
  {
    hide Pow2, Lookup, Short;
    var m: Mapping :| StarvedBy(f, mem, root, lo, hi, m);
    assert StarvedBy(f, mem, root, lo', hi', m);
  }

  lemma FormatOk(f: Format, mem: Memory, root: Page, places: Places)
    requires Shape(f, mem, root, places)
    ensures f.Valid()
  {
  }

  /** The attributes of a page of type `t`. */
  function WithType(a: Attr, t: nat): Attr {
    a.(mt := t)
  }

  /** Mapped to itself; within reach of the masks with the address's own memory type. */
  ghost predicate TypedAs(a: Attr, st: State, w: nat, v: nat, t: Translation)
    requires |st.fix16k| == 2 && |st.fix4k| == 8
  {
    if v < Pow2(w) then t == Identity(WithType(a, TypeAt(st, v)), v)
    else exists k: nat :: k <= 7 && t == Identity(WithType(a, k), v)
  }

  /** What the first `n` rounds reach is mapped so; all else is as before. */
  ghost predicate Inserted(f: Format, root: Page, m0: Memory, m1: Memory, start: nat, end: nat, n: nat, a: Attr,
                           st: State, w: nat)
    requires f.Valid() && |st.fix16k| == 2 && |st.fix4k| == 8
  {
    forall v: nat | v < f.Limit() ::
      if Reached(st, start, end, n, v) then TypedAs(a, st, w, v, Translate(f, m1, root, v))
      else Translate(f, m1, root, v) == Translate(f, m0, root, v)
  }

  /** The range `start .. end` is mapped so; all else is as before. */
  ghost predicate InsertedRange(f: Format, root: Page, m0: Memory, m1: Memory, start: nat, end: nat, a: Attr, st: State,
                                w: nat)
    requires f.Valid() && |st.fix16k| == 2 && |st.fix4k| == 8
  {
    forall v: nat | v < f.Limit() ::
      if start <= v < end then TypedAs(a, st, w, v, Translate(f, m1, root, v))
      else Translate(f, m1, root, v) == Translate(f, m0, root, v)
  }

  lemma InsertedStep(f: Format, root: Page, m0: Memory, m1: Memory, m2: Memory, start: nat, end: nat, n: nat, a: Attr,
                     st: State, w: nat, t: nat)
    requires f.Valid() && |st.fix16k| == 2 && |st.fix4k| == 8 && t <= 7
    requires Inserted(f, root, m0, m1, start, end, n, a, st, w)
    requires var c := Cursor(st, start, end, n);
             && c < end && Typed(f, root, m1, m2, c, Min(NextOf(st, c), end), WithType(a, t))
             && forall v: nat | c <= v < NextOf(st, c) && v < Pow2(w) :: TypeAt(st, v) == t
    ensures Inserted(f, root, m0, m2, start, end, n + 1, a, st, w)
  {
    hide TypeAt, Identity, WithType, Reached, Cursor, NextOf, Translate, Pow2, Span;
    forall v: nat | v < f.Limit()
      ensures if Reached(st, start, end, n + 1, v) then TypedAs(a, st, w, v, Translate(f, m2, root, v))
              else Translate(f, m2, root, v) == Translate(f, m0, root, v)
    {
      OneMore(st, start, end, n, v);
    }
  }

  lemma InsertedNone(f: Format, root: Page, m: Memory, start: nat, end: nat, a: Attr, st: State, w: nat)
    requires f.Valid() && |st.fix16k| == 2 && |st.fix4k| == 8
    ensures Inserted(f, root, m, m, start, end, 0, a, st, w)
  {
    hide TypeAt;
  }

  lemma InsertedAll(f: Format, root: Page, m0: Memory, m1: Memory, start: nat, end: nat, n: nat, a: Attr, st: State,
                    w: nat)
    requires f.Valid() && RegularState(st, w) && end <= NO_NEXT && StartsWell(st, w, start)
    requires Inserted(f, root, m0, m1, start, end, n, a, st, w) && Cursor(st, start, end, n) >= end
    ensures InsertedRange(f, root, m0, m1, start, end, a, st, w)
  {
    hide TypeAt, Reached, Cursor, NextOf, Translate, Pow2, Span, Regular, StartsWell, TypedAs;
    forall v: nat | v < f.Limit()
      ensures if start <= v < end then TypedAs(a, st, w, v, Translate(f, m1, root, v))
              else Translate(f, m1, root, v) == Translate(f, m0, root, v)
    {
      ReachedAll(st, w, start, end, n, v);
    }
  }

  /** `v` mapped to itself under the rights `a` (1 read, 2 write, 4 execute), open to users; unmapped for no rights. */
  ghost predicate UserIdentity(t: Translation, v: nat, a: nat) {
    if a == 0 then t == Unmapped
    else
      && t.Mapped? && t.paddr == v && t.attr.Hpt? && t.attr.p && t.attr.u && !t.attr.nodeleg && !t.attr.uc
      && (t.attr.w <==> (a / 2) % 2 == 1) && (!t.attr.nx <==> (a / 4) % 2 == 1)
  }

  /** The range after `insert_root`: rights by their numbers, memory types by the registers. */
  ghost predicate RootMemory(f: Format, mem: Memory, root: Page, start: nat, end: nat, a: nat, st: State, w: nat)
    requires f.Valid() && |st.fix16k| == 2 && |st.fix4k| == 8
  {
    forall v: nat | start <= v < end && v < f.Limit() ::
      && UserIdentity(Translate(f, mem, root, v), v, a)
      && (a != 0 && v < Pow2(w) ==> IsType(st, v, Translate(f, mem, root, v).attr.mt))
  }

  lemma RootIdentity(t: Translation, v: nat, a: nat, k: nat)
    requires t == Identity(WithType(HwAttr(a), k), v)
    ensures UserIdentity(t, v, a) && (a != 0 ==> t.Mapped? && t.attr.Hpt? && t.attr.mt == k)
  {
  }

  lemma RootMemoryFrom(f: Format, root: Page, m0: Memory, m1: Memory, start: nat, end: nat, a: nat, st: State, w: nat)
    requires f.Valid() && RegularState(st, w) && InsertedRange(f, root, m0, m1, start, end, HwAttr(a), st, w)
    ensures RootMemory(f, m1, root, start, end, a, st, w)
  {
    hide TypeAt, Translate, Pow2, Span, Regular, HwAttr, WithType, Identity, IsType, UserIdentity;
    forall v: nat | start <= v < end && v < f.Limit()
      ensures UserIdentity(Translate(f, m1, root, v), v, a)
      ensures a != 0 ==> Translate(f, m1, root, v).Mapped? && Translate(f, m1, root, v).attr.Hpt?
      ensures a != 0 && v < Pow2(w) ==> IsType(st, v, Translate(f, m1, root, v).attr.mt)
    {
      var t := Translate(f, m1, root, v);
      assert TypedAs(HwAttr(a), st, w, v, t);
      if v < Pow2(w) {
        TypeIs(st, w, v);
        RootIdentity(t, v, a, TypeAt(st, v));
      } else {
        var k: nat :| k <= 7 && t == Identity(WithType(HwAttr(a), k), v);
        RootIdentity(t, v, a, k);
      }
    }
  }

  /** Every type that occurs fits the three bits of an entry. */
  ghost predicate TypesFit(st: State)
    requires |st.fix16k| == 2 && |st.fix4k| == 8
  {
    forall v: nat :: TypeAt(st, v) <= 7
  }

  /**
   `insert_root` for the physical pages `first .. last`, stopped after at most `rounds` rounds of its loop. `cur` tells
   how far it got. Once it is through, if it started within reach of the masks or where nothing matches, exactly the
   pages of the range are mapped to themselves, each with the memory type its MTRRs give it.
   */
  method InsertRoot(hpt: PageTable, st: State, first: nat, last: nat, rights: nat, rounds: nat, ghost w: nat)
    returns (ok: bool, cur: nat)
    requires hpt.Valid() && RegularState(st, w) && TypesFit(st) && 4096 * last <= hpt.fmt.Limit()
    requires 4096 * last < NO_NEXT
    modifies hpt, hpt.pool
    ensures ok ==> && hpt.Valid() && cur == Cursor(st, 4096 * first, 4096 * last, rounds)
                   && Inserted(hpt.fmt, hpt.root, old(hpt.mem), hpt.mem, 4096 * first, 4096 * last, rounds,
                               HwAttr(rights), st, w)
                   && (cur >= 4096 * last && StartsWell(st, w, 4096 * first) ==>
                         InsertedRange(hpt.fmt, hpt.root, old(hpt.mem), hpt.mem, 4096 * first, 4096 * last,
                                       HwAttr(rights), st, w)
                         && RootMemory(hpt.fmt, hpt.mem, hpt.root, 4096 * first, 4096 * last, rights, st, w))
    ensures !ok ==> hpt.fmt.Valid() && hpt.pool.avail == [] && Starved(hpt.fmt, hpt.mem, hpt.root, 0, 4096 * last)
  {
    hide Typed, Inserted, InsertedRange, Shape, Distinct, Pow2, Span, TypeAt, HwAttr, WithType, Regular, NoMatch,
         TypesFit, Cursor, Reached, NextOf, StartsWell, IsType, RootMemory, Starved;
    ghost var mem0, a := hpt.mem, HwAttr(rights);
    var start, end := 4096 * first, 4096 * last;
    cur := start;
    FormatOk(hpt.fmt, hpt.mem, hpt.root, hpt.places);
    ReachOk(hpt.fmt, w);
    InsertedNone(hpt.fmt, hpt.root, hpt.mem, start, end, a, st, w);
    CursorStart(st, start, end);
    for i := 0 to rounds
      invariant (cur % 4096 == 0 || cur >= end) && hpt.Valid() && cur == Cursor(st, start, end, i)
      invariant Inserted(hpt.fmt, hpt.root, mem0, hpt.mem, start, end, i, a, st, w)
    {
      OneMore(st, start, end, i, 0);
      if cur < end {
        var t, next := Memtype(st, cur, w);
        FitsAt(st, cur);
        assert t <= 7;
        ghost var mem := hpt.mem;
        var done := MapTypedRange(hpt, cur, Min(next, end), WithType(HwAttr(rights), t));
        if !done {
          StarvedWider(hpt.fmt, hpt.mem, hpt.root, cur, Min(next, end), 0, end);
          return false, cur;
        }
        InsertedStep(hpt.fmt, hpt.root, mem0, mem, hpt.mem, start, end, i, a, st, w, t);
        cur := next;
      } else {
        InsertedStays(hpt.fmt, hpt.root, mem0, hpt.mem, start, end, i, a, st, w);
      }
    }
    if cur >= end && StartsWell(st, w, start) {
      InsertedAll(hpt.fmt, hpt.root, mem0, hpt.mem, start, end, rounds, a, st, w);
      RootMemoryFrom(hpt.fmt, hpt.root, mem0, hpt.mem, start, end, rights, st, w);
    }
    ok := true;
  }

  lemma CursorStart(st: State, start: nat, end: nat)
    ensures Cursor(st, start, end, 0) == start
  {
  }

  lemma InsertedStays(f: Format, root: Page, m0: Memory, m1: Memory, start: nat, end: nat, n: nat, a: Attr, st: State,
                      w: nat)
    requires f.Valid() && |st.fix16k| == 2 && |st.fix4k| == 8
    requires Inserted(f, root, m0, m1, start, end, n, a, st, w) && Cursor(st, start, end, n) >= end
    ensures Inserted(f, root, m0, m1, start, end, n + 1, a, st, w)
  {
    hide TypedAs, Reached, Cursor, NextOf, Translate, Span;
    forall v: nat | v < f.Limit()
      ensures if Reached(st, start, end, n + 1, v) then TypedAs(a, st, w, v, Translate(f, m1, root, v))
              else Translate(f, m1, root, v) == Translate(f, m0, root, v)
    {
      OneMore(st, start, end, n, v);
    }
  }

  lemma FitsAt(st: State, v: nat)
    requires |st.fix16k| == 2 && |st.fix4k| == 8 && TypesFit(st)
    ensures TypeAt(st, v) <= 7
  {
  }

  lemma ReachOk(f: Format, w: nat)
    requires f.Valid() && w <= 63
    ensures 0x100000 < f.Limit() && Pow2(w) < NO_NEXT
  {
    hide Span;
    SpanIsPow2(f.levels);
    Pow2Order(21, f.MaxOrder());
    TwentyOne();
    Pow2Order(w, 63);
    SixtyThree();
  }
}
