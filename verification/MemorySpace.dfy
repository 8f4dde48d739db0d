/**
 Delegation between memory spaces: the sender's host page table is read mapping by
 mapping, rights are narrowed, and the receiver's host and guest tables are updated.
 */
module MemorySpace {
  import opened Radix
  import opened Bits
  import opened PageTableModel
  import opened PageTables

  const USER_ADDR: nat := 0x7fff_ffff_f000
  const CANON_BOUND: nat := 0x8000_0000_0000

  const NO_HPT := Hpt(false, false, false, false, false, false, false, 0, false, false)
  const NO_EPT := Ept(false, false, false, 0, false)

  datatype Delegation = Delegated | InvalidMapping | Asserts | Exhausted | Panicked

  // ------------------------------------------------------------------- rights

  /** Page-table attributes for the rights mask `a` (1 read, 2 write, 4 execute). */
  function HwAttr(a: nat): Attr {
    if a != 0 then
      Hpt(true, (a / 2) % 2 == 1, true, false, true, true, false, 0, false, (a / 4) % 2 == 0)
    else NO_HPT
  }

  function MergeHwAttr(source: Attr, desired: Attr): Attr {
    if source.Hpt? && desired.Hpt? && source.p && desired.p
      then source.(w := source.w && desired.w, nx := source.nx || desired.nx)
    else NO_HPT
  }

  /** The memory type that the bits of a page-table entry select: of the three, only the uncached bit can be set. */
  function AttrToPat(a: Attr): nat {
    if a.Hpt? && a.uc then 2 else 0
  }

  predicate Delegatable(a: Attr) {
    a.Hpt? && a.u && !a.nodeleg
  }

  /** What the receiver may get for a page the sender sees as `t`. */
  function Downgrade(t: Translation, want: Attr): Translation {
    if t.Mapped? && t.attr.Present() && Delegatable(t.attr) && MergeHwAttr(t.attr, want).Present() then
      Mapped(t.paddr, MergeHwAttr(t.attr, want))
    else Unmapped
  }

  /** A page that is there but must not be delegated. */
  predicate Refused(t: Translation, want: Attr) {
    want.Present() && t.Mapped? && !Delegatable(t.attr)
  }

  /** Rights only shrink, and everything else about the page stays. */
  lemma DowngradeNarrows(t: Translation, want: Attr)
    requires Downgrade(t, want).Mapped?
    ensures var d := Downgrade(t, want);
            && t.Mapped? && d.paddr == t.paddr && Delegatable(t.attr) && Delegatable(d.attr)
            && want.Hpt? && want.p && d.attr.p
            && (d.attr.w <==> t.attr.w && want.w)
            && (!d.attr.nx <==> !t.attr.nx && !want.nx)
            && d.attr.(w := t.attr.w, nx := t.attr.nx) == t.attr
    ensures Downgrade(Downgrade(t, want), want) == Downgrade(t, want)
  {
  }

  /** The guest view of host attributes. */
  function AttrFromHpt(a: Attr): Attr
    requires a.Present() ==> Delegatable(a)
  {
    if a.Present() then Ept(true, a.w, !a.nx, a.mt, false) else NO_EPT
  }

  function ConvertMapping(m: Mapping): Mapping
    requires m.attr.Present() ==> Delegatable(m.attr)
  {
    m.(attr := AttrFromHpt(m.attr))
  }

  // ------------------------------------------------------------------ windows

  predicate IsValidUserMapping(vaddr: nat, ord: nat) {
    vaddr < USER_ADDR && ord <= Bits.MaxOrder(vaddr, USER_ADDR) && AlignedBy(vaddr, ord)
  }

  function ClampMapping(m: Mapping, base: nat, ord: nat): Mapping {
    OrAtLeast(m.vaddr, base);
    var v := Or(m.vaddr, base);
    Mapping(v, m.paddr + (v - m.vaddr), m.attr, Min(m.order, ord))
  }

  /** `offset` is a machine word; adding it wraps around. */
  function MoveBy(m: Mapping, offset: nat): Mapping {
    if offset == 0 then m
    else Mapping((m.vaddr + offset) % 0x1_0000_0000_0000_0000, m.paddr, m.attr, Min(m.order, BitScanReverse(offset)))
  }

  function OffsetBetween(from: nat, to: nat): nat {
    (to - from) % 0x1_0000_0000_0000_0000
  }

  /** The empty mapping that stands in for what must not be delegated. */
  function EmptyMapping(cur: nat, end: nat): Mapping
    requires end > 0
  {
    Mapping(cur, 0, NO_HPT, Bits.MaxOrder(cur, end))
  }

  function LookupAndAdjustRights(f: Format, mem: Memory, root: Page, cur: nat, end: nat, want: Attr): Mapping
    requires f.Valid() && end > 0
  {
    var found := if want.Present() then Lookup(f, mem, root, cur) else EmptyMapping(cur, end);
    var m := if found.attr.Present() && !Delegatable(found.attr) then EmptyMapping(cur, end) else found;
    m.(attr := MergeHwAttr(m.attr, want))
  }

  /** A valid window lies below the canonical boundary. */
  lemma ValidWindow(vaddr: nat, ord: nat)
    requires IsValidUserMapping(vaddr, ord)
    ensures ord <= 46 && vaddr + Pow2(ord) <= CANON_BOUND
  {
    Pow2At46();
    var r := BitScanReverse(USER_ADDR);
    Pow2Order(r, 46);
    Pow2Order(47, r);
    assert ord <= r <= 46;
    AlignedPower(47, ord);
    BlockEnd(vaddr, CANON_BOUND, ord, ord);
  }

  /** The windows that are accepted, in plain arithmetic. */
  lemma ValidIff(vaddr: nat, ord: nat)
    ensures IsValidUserMapping(vaddr, ord) <==>
            vaddr < 0x7fff_ffff_f000 && ord <= 46 && vaddr % Pow2(ord) == 0
  {
    hide Pow2, BitScanForward, BitScanReverse;
    HighestBit();
    NoOffset(ord);
    if vaddr > 0 { ForwardIsAlignment(vaddr, ord); }
  }

  lemma HighestBit()
    ensures BitScanReverse(USER_ADDR) == 46
  {
    Pow2At46();
    var r := BitScanReverse(USER_ADDR);
    Pow2Order(r, 46);
    Pow2Order(47, r);
    if r < 46 { Pow2Order(r, 45); }
    assert Pow2(46) == 2 * Pow2(45);
  }

  lemma AlignedPower(big: nat, small: nat)
    requires small <= big
    ensures AlignedBy(Pow2(big), small)
  {
    Pow2Up(small, big);
  }

  lemma Pow2At46()
    ensures Pow2(46) == 0x4000_0000_0000 && Pow2(47) == CANON_BOUND
  {
    Pow2Nine();
    Pow2Sum(12, 12);
    Pow2Sum(24, 12);
    Pow2Sum(36, 9);
    assert Pow2(1) == 2;
    Pow2Sum(1, 45);
    Pow2Sum(1, 46);
  }

  /**
   It stays below USER_ADDR, too, unless it ends exactly at the canonical boundary:
   the order is checked against USER_ADDR taken as a size, not against the room left.
   */
  lemma UserWindow(vaddr: nat, ord: nat)
    requires IsValidUserMapping(vaddr, ord) && 12 <= ord
    ensures vaddr + Pow2(ord) <= USER_ADDR <==> vaddr + Pow2(ord) != CANON_BOUND
  {
    hide Pow2, Bits.MaxOrder;
    ValidWindow(vaddr, ord);
    NextAligned(vaddr, ord);
    AlignedDown(vaddr + Pow2(ord), ord, 12);
    Pow2Nine();
    LastPage(vaddr + Pow2(ord));
  }

  lemma LastPage(end: nat)
    requires end % 4096 == 0 && end <= CANON_BOUND
    ensures end <= USER_ADDR || end == CANON_BOUND
  {
  }

  lemma UserWindowExample()
    ensures IsValidUserMapping(0x4000_0000_0000, 46)
    ensures 0x4000_0000_0000 + Pow2(46) > USER_ADDR
  {
    Pow2At46();
    Pow2Order(BitScanReverse(USER_ADDR), 45);
    Pow2Order(46, BitScanReverse(USER_ADDR));
    ForwardIsAlignment(0x4000_0000_0000, 46);
    assert AlignedBy(0x4000_0000_0000, 46);
  }

  // ---------------------------------------------------------------- one round

  /** A window of the send or receive side. */
  predicate Within(base: nat, ord: nat, v: nat) {
    base <= v < base + Pow2(ord)
  }

  ghost predicate GoodWindow(base: nat, ord: nat) {
    12 <= ord <= 46 && AlignedBy(base, ord) && base + Pow2(ord) <= CANON_BOUND
  }

  /** Moving between aligned windows neither wraps around nor shrinks a mapping. */
  lemma MoveFacts(m: Mapping, from: nat, to: nat, ord: nat)
    requires GoodWindow(from, ord) && GoodWindow(to, ord)
    requires from <= m.vaddr < from + Pow2(ord) && m.order <= ord
    ensures MoveBy(m, OffsetBetween(from, to)) == m.(vaddr := m.vaddr - from + to)
  {
    hide Pow2, BitScanReverse;
    var o := OffsetBetween(from, to);
    assert o == if to >= from then to - from else 0x1_0000_0000_0000_0000 - (from - to);
    if o != 0 {
      OffsetAligned(from, to, ord);
      ReverseOfMultiple(o, ord);
    }
  }

  lemma OffsetAligned(from: nat, to: nat, ord: nat)
    requires ord <= 46 && AlignedBy(from, ord) && AlignedBy(to, ord) && from <= CANON_BOUND && to <= CANON_BOUND
    ensures AlignedBy(OffsetBetween(from, to), ord)
  {
    hide Pow2;
    if to >= from {
      AlignedSum(to, from, ord);
    } else {
      AlignedSum(from, to, ord);
      WordAligned(ord);
      AlignedSum(0x1_0000_0000_0000_0000, from - to, ord);
      assert OffsetBetween(from, to) == 0x1_0000_0000_0000_0000 - (from - to);
    }
  }

  lemma WordAligned(ord: nat)
    requires ord <= 46
    ensures AlignedBy(0x1_0000_0000_0000_0000, ord)
  {
    Pow2At46();
    Pow2Sum(17, 47);
    assert Pow2(17) == 131072 by { Pow2Nine(); assert Pow2(5) == 32; Pow2Sum(5, 12); }
    AlignedPower(64, ord);
  }

  /** Clamping keeps the part of an aligned mapping that lies in the window. */
  lemma ClampFacts(m: Mapping, base: nat, ord: nat, cur: nat)
    requires AlignedBy(m.vaddr, m.order) && AlignedBy(base, ord)
    requires Within(base, ord, cur) && m.vaddr <= cur < m.vaddr + Pow2(m.order)
    ensures var c := ClampMapping(m, base, ord);
            && c.vaddr == Max(m.vaddr, base) && c.paddr == m.paddr + (c.vaddr - m.vaddr)
            && c.order == Min(m.order, ord) && c.attr == m.attr
            && AlignedBy(c.vaddr, c.order) && AlignedBy(c.vaddr - m.vaddr, c.order)
            && c.vaddr <= cur < c.vaddr + Pow2(c.order)
            && base <= c.vaddr && c.vaddr + Pow2(c.order) <= base + Pow2(ord)
            && c.vaddr + Pow2(c.order) <= m.vaddr + Pow2(m.order)
  {
    hide Pow2, Or, AlignedBy;
    NoOffset(m.order);
    if m.order <= ord {
      Nested(m.vaddr, m.order, base, ord);
      OrBase(base, m.vaddr - base, ord);
    } else {
      Nested(base, ord, m.vaddr, m.order);
      OrBase(m.vaddr, base - m.vaddr, m.order);
      AlignedDown(m.vaddr, m.order, ord);
      AlignedSum(base, m.vaddr, ord);
    }
  }

  /** The stand-in mapping is a naturally aligned block that starts at `cur`. */
  lemma EmptyFacts(cur: nat, end: nat, ord: nat)
    requires 12 <= ord && Pow2(ord) <= end && cur % 4096 == 0
    ensures AlignedBy(cur, EmptyMapping(cur, end).order) && 12 <= EmptyMapping(cur, end).order
  {
    hide Pow2, BitScanForward, BitScanReverse;
    HighBit(end, ord);
    if cur != 0 {
      ForwardIsAlignment(cur, Bits.MaxOrder(cur, end));
      Pow2Nine();
      ForwardIsAlignment(cur, 12);
    }
  }

  lemma HighBit(n: nat, k: nat)
    requires Pow2(k) <= n
    ensures k <= BitScanReverse(n)
  {
    hide Pow2;
    var r := BitScanReverse(n);
    Pow2Sum(1, r);
    Pow2One();
    Pow2Order(r + 1, k);
  }

  /** The mapping looked up for `cur`, with its rights adjusted. */
  lemma AdjustFacts(f: Format, mem: Memory, root: Page, cur: nat, end: nat, want: Attr, ord: nat)
    requires f.Valid() && 12 <= ord && Pow2(ord) <= end && cur % 4096 == 0
    ensures var m := LookupAndAdjustRights(f, mem, root, cur, end, want);
            && 12 <= m.order && AlignedBy(m.vaddr, m.order) && AlignedBy(m.paddr, m.order)
            && m.vaddr <= cur < m.vaddr + Pow2(m.order)
            && (m.attr.Present() ==> Delegatable(m.attr))
            && (forall v: nat | InWindow(m, v) ::
                  Meaning(m, v) == Unmapped || Meaning(m, v) == Downgrade(Translate(f, mem, root, v), want))
            && (m != EmptyMapping(cur, end) || !Refused(Translate(f, mem, root, cur), want) ==>
                  forall v: nat | InWindow(m, v) :: Meaning(m, v) == Downgrade(Translate(f, mem, root, v), want))
  {
    hide Pow2, Lookup, Bits.MaxOrder, AlignedBy, Delegatable, MergeHwAttr;
    var found := Lookup(f, mem, root, cur);
    EmptyFacts(cur, end, ord);
    NothingMerged(want);
    NoOffset(Bits.MaxOrder(cur, end));
    if want.Present() && (found.attr.Present() ==> Delegatable(found.attr)) {
      AdjustFound(f, mem, root, cur, want);
    } else {
      LookupFacts(f, mem, root, cur);
    }
  }

  lemma NothingMerged(want: Attr)
    ensures MergeHwAttr(NO_HPT, want) == NO_HPT
    ensures !want.Present() ==> forall t: Translation :: Downgrade(t, want) == Unmapped
  {
  }

  /** A mapping that may be delegated keeps its place. */
  lemma AdjustFound(f: Format, mem: Memory, root: Page, cur: nat, want: Attr)
    requires f.Valid() && want.Present()
    requires var found := Lookup(f, mem, root, cur); found.attr.Present() ==> Delegatable(found.attr)
    ensures var found := Lookup(f, mem, root, cur);
            var m := found.(attr := MergeHwAttr(found.attr, want));
            && 12 <= m.order && AlignedBy(m.vaddr, m.order) && AlignedBy(m.paddr, m.order)
            && m.vaddr <= cur < m.vaddr + Pow2(m.order) && (m.attr.Present() ==> Delegatable(m.attr))
            && forall v: nat | InWindow(m, v) :: Meaning(m, v) == Downgrade(Translate(f, mem, root, v), want)
  {
    hide Pow2, Walk;
    LookupFacts(f, mem, root, cur);
  }

  /** The mapping for the receiver that one round of `delegate` produces, and the part of the window it covers. */
  function RoundMapping(f: Format, mem: Memory, root: Page, want: Attr, base: nat, ord: nat, cur: nat): Mapping
    requires f.Valid()
  {
    ClampMapping(LookupAndAdjustRights(f, mem, root, cur, base + Pow2(ord), want), base, ord)
  }

  /**
   One round: the clamped mapping lies in the window around `cur`, moving it keeps its
   size, and every address of it gets what may be delegated, or nothing.
   */
  lemma RoundFacts(f: Format, mem: Memory, root: Page, want: Attr, base: nat, rcv: nat, ord: nat, cur: nat)
    requires f.Valid() && GoodWindow(base, ord) && GoodWindow(rcv, ord) && Within(base, ord, cur) && cur % 4096 == 0
    ensures var c := RoundMapping(f, mem, root, want, base, ord, cur);
            var t := MoveBy(c, OffsetBetween(base, rcv));
            && 12 <= c.order <= ord && base <= c.vaddr <= cur < c.vaddr + Pow2(c.order) <= base + Pow2(ord)
            && (c.vaddr + Pow2(c.order)) % 4096 == 0
            && t == c.(vaddr := c.vaddr - base + rcv) && Aligned(t)
            && (t.attr.Present() ==> Delegatable(t.attr))
            && (forall v: nat | InWindow(c, v) ::
                  Meaning(c, v) == Unmapped || Meaning(c, v) == Downgrade(Translate(f, mem, root, v), want))
            && (!Refused(Translate(f, mem, root, cur), want) ==>
                  forall v: nat | InWindow(c, v) :: Meaning(c, v) == Downgrade(Translate(f, mem, root, v), want))
  {
    hide Pow2, Walk, Or, Bits.MaxOrder, MoveBy, OffsetBetween, ClampMapping, LookupAndAdjustRights, Lookup;
    var m := LookupAndAdjustRights(f, mem, root, cur, base + Pow2(ord), want);
    AdjustFacts(f, mem, root, cur, base + Pow2(ord), want, ord);
    ClampFacts(m, base, ord, cur);
    var c := ClampMapping(m, base, ord);
    MoveFacts(c, base, rcv, ord);
    RoundAligned(m, c, base, rcv, ord);
    forall v: nat | InWindow(c, v)
      ensures InWindow(m, v) && Meaning(c, v) == Meaning(m, v)
    {
    }
  }

  lemma NoOffset(order: nat)
    ensures AlignedBy(0, order)
  {
    hide Pow2;
    DivModUnique(0, 0, Pow2(order));
  }

  lemma RoundAligned(m: Mapping, c: Mapping, base: nat, rcv: nat, ord: nat)
    requires AlignedBy(m.paddr, m.order) && c.order <= m.order && 12 <= c.order <= ord
    requires AlignedBy(base, ord) && AlignedBy(rcv, ord) && AlignedBy(c.vaddr, c.order)
    requires m.vaddr <= c.vaddr && base <= c.vaddr && c.paddr == m.paddr + (c.vaddr - m.vaddr)
    requires AlignedBy(c.vaddr - m.vaddr, c.order)
    ensures AlignedBy(c.paddr, c.order)
    ensures AlignedBy(c.vaddr - base + rcv, c.order)
    ensures (c.vaddr + Pow2(c.order)) % 4096 == 0
  {
    hide Pow2;
    AlignedDown(m.paddr, m.order, c.order);
    AlignedSum(m.paddr, c.vaddr - m.vaddr, c.order);
    AlignedDown(base, ord, c.order);
    AlignedDown(rcv, ord, c.order);
    AlignedSum(c.vaddr, base, c.order);
    AlignedSum(c.vaddr - base, rcv, c.order);
    NextAligned(c.vaddr, c.order);
    AlignedDown(c.vaddr + Pow2(c.order), c.order, 12);
    Pow2Nine();
  }

  // -------------------------------------------------------------- whole window

  /** A page table at one moment. */
  datatype View = View(fmt: Format, root: Page, mem: Memory) {
    ghost function At(v: nat): Translation
      requires fmt.Valid()
    {
      Translate(fmt, mem, root, v)
    }
  }

  /** The guest's translation that corresponds to a host translation. */
  function ForGuest(t: Translation): Translation {
    if t.Mapped? && t.attr.Present() && Delegatable(t.attr) then Mapped(t.paddr, AttrFromHpt(t.attr)) else Unmapped
  }

  function Seen(guest: bool, t: Translation): Translation {
    if guest then ForGuest(t) else t
  }

  /** What the receiver sees is what may be delegated of `src`, or (unless exact) nothing. */
  predicate Granted(t: Translation, src: Translation, want: Attr, guest: bool, exact: bool) {
    t == Seen(guest, Downgrade(src, want)) || (!exact && t == Unmapped)
  }

  /** The receiver has the first `n` bytes of the window, and nothing else changed. */
  ghost predicate Received(was: View, now: View, src: View, base: nat, rcv: nat, n: nat, want: Attr, guest: bool,
                           exact: bool)
    requires was.fmt.Valid() && now.fmt.Valid() && src.fmt.Valid()
  {
    forall x: nat | x < now.fmt.Limit() :: ReceivedAt(was, now, src, base, rcv, n, want, guest, exact, x)
  }

  ghost predicate ReceivedAt(was: View, now: View, src: View, base: nat, rcv: nat, n: nat, want: Attr, guest: bool,
                             exact: bool, x: nat)
    requires was.fmt.Valid() && now.fmt.Valid() && src.fmt.Valid()
  {
    if rcv <= x < rcv + n then Granted(now.At(x), src.At(x - rcv + base), want, guest, exact)
    else now.At(x) == was.At(x)
  }

  /** The sender's window, which may be the receiver's as well: untouched from `cur` on, at most narrowed before. */
  ghost predicate Sending(was: View, now: View, base: nat, ord: nat, cur: nat, want: Attr, exact: bool)
    requires was.fmt.Valid() && now.fmt.Valid()
  {
    forall v: nat | Within(base, ord, v) ::
      now.At(v) == was.At(v) || (v < cur && Granted(now.At(v), was.At(v), want, false, exact))
  }

  ghost predicate NothingRefused(src: View, base: nat, ord: nat, want: Attr)
    requires src.fmt.Valid()
  {
    forall v: nat | Within(base, ord, v) :: !Refused(src.At(v), want)
  }

  /** Nothing in the window is mapped, and nothing else changed. */
  ghost predicate Withdrawn(was: View, now: View, base: nat, n: nat)
    requires was.fmt.Valid() && now.fmt.Valid()
  {
    forall x: nat | x < now.fmt.Limit() :: now.At(x) == if base <= x < base + n then Unmapped else was.At(x)
  }

  /** Delegating no rights is withdrawing. */
  lemma WithdrawnAll(was: View, now: View, src: View, base: nat, ord: nat, guest: bool)
    requires was.fmt.Valid() && now.fmt.Valid() && src.fmt.Valid()
    requires Received(was, now, src, base, base, Pow2(ord), HwAttr(0), guest, NothingRefused(src, base, ord, HwAttr(0)))
    ensures Withdrawn(was, now, base, Pow2(ord))
  {
    hide Pow2, Translate;
    forall x: nat | x < now.fmt.Limit()
      ensures now.At(x) == if base <= x < base + Pow2(ord) then Unmapped else was.At(x)
    {
      assert ReceivedAt(was, now, src, base, base, Pow2(ord), HwAttr(0), guest,
                        NothingRefused(src, base, ord, HwAttr(0)), x);
    }
  }

  /** Both tables tell the same story about the first `n` bytes of the window. */
  ghost predicate SameStory(host: View, guest: View, rcv: nat, n: nat)
    requires host.fmt.Valid() && guest.fmt.Valid()
  {
    forall x: nat | rcv <= x < rcv + n :: guest.At(x) == ForGuest(host.At(x))
  }

  /** What one round's mapping means at each address it covers. */
  ghost predicate RoundMeans(goal: Goal, c: Mapping)
    requires goal.Good()
  {
    forall v: nat | InWindow(c, v) :: Granted(Meaning(c, v), goal.src.At(v), goal.want, false, goal.exact)
  }

  lemma RoundMeansFrom(goal: Goal, src: View, cur: nat)
    requires goal.Good() && src.fmt == goal.src.fmt && src.root == goal.src.root
    requires Within(goal.base, goal.ord, cur) && cur % 4096 == 0
    requires Sending(goal.src, src, goal.base, goal.ord, cur, goal.want, goal.exact)
    ensures RoundMeans(goal, RoundMapping(src.fmt, src.mem, src.root, goal.want, goal.base, goal.ord, cur))
  {
    hide Pow2, Walk, RoundMapping, MoveBy, Lookup, Meaning;
    RoundFacts(src.fmt, src.mem, src.root, goal.want, goal.base, goal.rcv, goal.ord, cur);
    var c := RoundMapping(src.fmt, src.mem, src.root, goal.want, goal.base, goal.ord, cur);
    assert src.At(cur) == goal.src.At(cur);
    forall v: nat | InWindow(c, v)
      ensures Granted(Meaning(c, v), goal.src.At(v), goal.want, false, goal.exact)
    {
      assert Within(goal.base, goal.ord, v);
    }
  }

  /** One receiving table after one more round. */
  lemma ReceivedStep(goal: Goal, was: View, mid: View, now: View, cur: nat, c: Mapping, guest: bool)
    requires goal.Good() && was.fmt.Valid() && mid.fmt == now.fmt == was.fmt && mid.root == now.root
    requires RoundFits(goal, cur, c) && RoundMeans(goal, c)
    requires Received(was, mid, goal.src, goal.base, goal.rcv, cur - goal.base, goal.want, guest, goal.exact)
    requires Updated(now.fmt, now.root, mid.mem, now.mem, if guest then ConvertMapping(Moved(goal, c))
                     else Moved(goal, c))
    ensures Received(was, now, goal.src, goal.base, goal.rcv, c.vaddr + Pow2(c.order) - goal.base, goal.want, guest,
                     goal.exact)
  {
    hide Pow2, Walk, Lookup, Translate;
    var base, rcv := goal.base, goal.rcv;
    var u := if guest then ConvertMapping(Moved(goal, c)) else Moved(goal, c);
    var n := c.vaddr + Pow2(c.order) - base;
    forall x: nat | x < now.fmt.Limit()
      ensures ReceivedAt(was, now, goal.src, base, rcv, n, goal.want, guest, goal.exact, x)
    {
      assert ReceivedAt(was, mid, goal.src, base, rcv, cur - base, goal.want, guest, goal.exact, x);
      assert now.At(x) == Translate(now.fmt, now.mem, now.root, x);
      assert mid.At(x) == Translate(now.fmt, mid.mem, now.root, x);
      if InWindow(u, x) {
        assert InWindow(c, x - rcv + base);
        assert Meaning(u, x) == Seen(guest, Meaning(c, x - rcv + base));
      }
    }
  }

  /** The sender's window when sender and receiver are the same table. */
  lemma SendingStep(goal: Goal, src: View, src': View, cur: nat, c: Mapping)
    requires goal.Good() && src.fmt.Valid() && src'.fmt == src.fmt && src'.root == src.root
    requires CANON_BOUND <= src.fmt.Limit() && RoundFits(goal, cur, c) && RoundMeans(goal, c)
    requires Sending(goal.src, src, goal.base, goal.ord, cur, goal.want, goal.exact)
    requires Updated(src.fmt, src.root, src.mem, src'.mem, Moved(goal, c))
    ensures Sending(goal.src, src', goal.base, goal.ord, c.vaddr + Pow2(c.order), goal.want, goal.exact)
  {
    hide Pow2, Walk, Lookup, Translate;
    Nested(goal.base, goal.ord, goal.rcv, goal.ord);
    Nested(goal.rcv, goal.ord, goal.base, goal.ord);
    forall v: nat | Within(goal.base, goal.ord, v)
      ensures src'.At(v) == goal.src.At(v)
           || (v < c.vaddr + Pow2(c.order) && Granted(src'.At(v), goal.src.At(v), goal.want, false, goal.exact))
    {
      assert src'.At(v) == Translate(src.fmt, src'.mem, src.root, v);
      assert src.At(v) == Translate(src.fmt, src.mem, src.root, v);
    }
  }

  /** The sender's window stays what it was as the cursor moves on. */
  lemma SendingOn(goal: Goal, src: View, cur: nat, next: nat)
    requires goal.Good() && src.fmt.Valid() && cur <= next
    requires Sending(goal.src, src, goal.base, goal.ord, cur, goal.want, goal.exact)
    ensures Sending(goal.src, src, goal.base, goal.ord, next, goal.want, goal.exact)
  {
    hide Pow2, Translate;
  }

  lemma SameStoryStep(goal: Goal, host: View, host': View, guest: View, guest': View, cur: nat, c: Mapping)
    requires goal.Good() && host.fmt.Valid() && guest.fmt.Valid() && host'.fmt == host.fmt && guest'.fmt == guest.fmt
    requires host'.root == host.root && guest'.root == guest.root
    requires CANON_BOUND <= host.fmt.Limit() && CANON_BOUND <= guest.fmt.Limit()
    requires RoundFits(goal, cur, c) && SameStory(host, guest, goal.rcv, cur - goal.base)
    requires Updated(host.fmt, host.root, host.mem, host'.mem, Moved(goal, c))
    requires Updated(guest.fmt, guest.root, guest.mem, guest'.mem, ConvertMapping(Moved(goal, c)))
    ensures SameStory(host', guest', goal.rcv, c.vaddr + Pow2(c.order) - goal.base)
  {
    hide Pow2, Walk, Lookup, Translate;
    var rcv := goal.rcv;
    forall x: nat | rcv <= x < rcv + (c.vaddr + Pow2(c.order) - goal.base)
      ensures guest'.At(x) == ForGuest(host'.At(x))
    {
      assert host'.At(x) == Translate(host.fmt, host'.mem, host.root, x);
      assert host.At(x) == Translate(host.fmt, host.mem, host.root, x);
      assert guest'.At(x) == Translate(guest.fmt, guest'.mem, guest.root, x);
      assert guest.At(x) == Translate(guest.fmt, guest.mem, guest.root, x);
    }
  }

  ghost function Now(t: PageTable): View
    reads t
  {
    View(t.fmt, t.root, t.mem)
  }

  lemma FourLevels(f: Format)
    requires f.levels == 4
    ensures CANON_BOUND <= f.Limit() && f.MaxOrder() == 48
  {
    SpanIsPow2(4);
    Pow2At46();
    Pow2Order(47, 48);
  }

  /** A memory space: host and guest page tables with one page allocator. */
  class MemSpace {
    const hpt: PageTable
    const ept: PageTable

    /** The processors that use the space, and those whose TLBs may hold old translations. */
    var cpus: set<nat>
    var staleHost: set<nat>
    var staleGuest: set<nat>

    constructor (h: PageTable, g: PageTable)
      ensures hpt == h && ept == g && cpus == staleHost == staleGuest == {}
    {
      hpt, ept, cpus, staleHost, staleGuest := h, g, {}, {}, {};
    }

    ghost predicate Valid()
      reads this, hpt, hpt.pool, ept, ept.pool
    {
      hpt != ept && hpt.pool == ept.pool && hpt.Valid() && ept.Valid() && hpt.fmt.levels == 4 && ept.fmt.levels == 4
    }

    /** Put one mapping into the tables of the chosen subspaces, the guest's first. */
    method UpdateTables(c: Cleanup, t: Mapping, host: bool, guest: bool) returns (r: Delegation)
      requires Valid() && Aligned(t) && t.order <= 46 && t.vaddr < CANON_BOUND
      requires t.attr.Present() ==> Delegatable(t.attr)
      modifies hpt, hpt.pool, ept, c
      ensures !r.Panicked? ==> Valid()
      ensures r != InvalidMapping && r != Asserts
      ensures !r.Delegated? ==>
                && hpt.pool.avail == []
                && ((host && StarvedHere(hpt.fmt, hpt.mem, hpt.root, t))
                    || (guest && StarvedHere(ept.fmt, ept.mem, ept.root, ConvertMapping(t))))
      ensures r.Exhausted? ==> hpt.mem == old(hpt.mem) || Untouched(hpt.fmt, hpt.root, old(hpt.mem), hpt.mem)
      ensures r.Exhausted? ==> Untouched(ept.fmt, ept.root, old(ept.mem), ept.mem)
                               || (guest && Updated(ept.fmt, ept.root, old(ept.mem), ept.mem, ConvertMapping(t)))
                               || ept.mem == old(ept.mem)
      ensures r.Delegated? && host ==> Updated(hpt.fmt, hpt.root, old(hpt.mem), hpt.mem, t)
      ensures r.Delegated? && guest ==> Updated(ept.fmt, ept.root, old(ept.mem), ept.mem, ConvertMapping(t))
      ensures !guest ==> ept.mem == old(ept.mem)
      ensures !host ==> hpt.mem == old(hpt.mem)
      ensures !r.Panicked? ==> Flushes(old(Now(hpt)), Now(hpt), old(Now(ept)), Now(ept), old(c.flush), c.flush)
    {
      hide Updated, Untouched, TableOk, LinkedIn, Rebuilt, FlushSound, Between, Pow2, Distinct, Flushes, WalkNeed,
           FillNeed, Lookup, Short, StarvedBy;
      ghost var flush0, h0, g0 := c.flush, Now(hpt), Now(ept);
      NoFlush(h0, g0, c.flush);
      FourLevels(hpt.fmt);
      FourLevels(ept.fmt);
      ghost var freed, taken;
      var o;
      if guest {
        ghost var avail := hpt.pool.avail;
        o, freed, taken := ept.Update(c, ConvertMapping(t));
        if !o.Ok? { StarvedAt(ept.fmt, old(ept.places), ept.mem, ept.root, ConvertMapping(t), o); }
        if o.Panic? { return Panicked; }
        PoolShrinks(ept.fmt, ept.root, old(ept.mem), old(ept.places), avail, ept.mem, ept.pool.avail, freed, taken,
                    hpt.places);
        assert hpt.Valid();
        FlushGuest(h0, g0, Now(ept), ConvertMapping(t), flush0, c.flush, freed);
        if o.OutOfMemory? { return Exhausted; }
      }
      if host {
        ghost var avail := hpt.pool.avail;
        ghost var mem0, places0, flush1 := hpt.mem, hpt.places, c.flush;
        o, freed, taken := hpt.Update(c, t);
        if !o.Ok? { StarvedAt(hpt.fmt, places0, hpt.mem, hpt.root, t, o); }
        if o.Panic? { return Panicked; }
        PoolShrinks(hpt.fmt, hpt.root, mem0, places0, avail, hpt.mem, hpt.pool.avail, freed, taken, ept.places);
        assert ept.Valid();
        FlushHost(h0, Now(hpt), g0, Now(ept), t, flush0, flush1, c.flush, freed);
        if o.OutOfMemory? { return Exhausted; }
      }
      return Delegated;
    }

    /**
     Memory delegation. Whatever the outcome short of a panic, the receiver's window holds
     only what the sender could pass on, and nothing outside it changed. On success the
     whole window was handled: exactly, if nothing in it was refused, and alike in the
     host and guest tables. Where a translation changed that a TLB may hold, all processors of
     the space are marked.
     */
    method Delegate(c: Cleanup, snd: PageTable, sndBase: nat, rcvBase: nat, ord: nat, attr: nat, host: bool,
                    guest: bool, maxPhys: nat) returns (r: Delegation)
      requires Valid() && 12 <= ord && snd != ept && snd.fmt.Valid() && snd.fmt.levels == 4
      modifies hpt, hpt.pool, ept, c, this`staleHost, this`staleGuest
      ensures !IsValidUserMapping(sndBase, ord) || !IsValidUserMapping(rcvBase, ord) ==>
                r.Delegated? && hpt.mem == old(hpt.mem) && ept.mem == old(ept.mem)
      ensures !r.Panicked? ==> Valid()
      ensures IsValidUserMapping(sndBase, ord) && IsValidUserMapping(rcvBase, ord) ==>
                && (r.Delegated? && host ==>
                      Received(old(Now(hpt)), Now(hpt), old(Now(snd)), sndBase, rcvBase, Pow2(ord), HwAttr(attr), false,
                               NothingRefused(old(Now(snd)), sndBase, ord, HwAttr(attr))))
                && (r.Delegated? && guest ==>
                      Received(old(Now(ept)), Now(ept), old(Now(snd)), sndBase, rcvBase, Pow2(ord), HwAttr(attr), true,
                               NothingRefused(old(Now(snd)), sndBase, ord, HwAttr(attr))))
                && (r.Delegated? && host && guest ==> SameStory(Now(hpt), Now(ept), rcvBase, Pow2(ord)))
                && (!r.Panicked? ==>
                      Partly(old(Now(hpt)), Now(hpt), old(Now(snd)), sndBase, rcvBase, ord, HwAttr(attr), false))
                && (!r.Panicked? ==>
                      Partly(old(Now(ept)), Now(ept), old(Now(snd)), sndBase, rcvBase, ord, HwAttr(attr), true))
      ensures !guest ==> ept.mem == old(ept.mem)
      ensures !host ==> hpt.mem == old(hpt.mem)
      ensures r.Asserts? ==> SomeUncached(old(Now(snd)), sndBase, ord)
      ensures r.InvalidMapping? ==> SomeBeyond(old(Now(snd)), sndBase, ord, maxPhys)
      ensures r.Exhausted? || r.Panicked? ==>
                && hpt.pool.avail == []
                && ((host && Starved(hpt.fmt, hpt.mem, hpt.root, rcvBase, rcvBase + Pow2(ord)))
                    || (guest && Starved(ept.fmt, ept.mem, ept.root, rcvBase, rcvBase + Pow2(ord))))
      ensures IsValidUserMapping(sndBase, ord) && IsValidUserMapping(rcvBase, ord) && r.Delegated? ==>
                && (host ==> Masked(Now(hpt), old(Now(snd)), sndBase, rcvBase, ord, attr, false, maxPhys))
                && (guest ==> Masked(Now(ept), old(Now(snd)), sndBase, rcvBase, ord, attr, true, maxPhys))
      ensures !r.Panicked? ==> Marked(old(Now(hpt)), Now(hpt), old(staleHost), staleHost, cpus)
      ensures !r.Panicked? ==> Marked(old(Now(ept)), Now(ept), old(staleGuest), staleGuest, cpus)
      ensures var marks := c.flush && IsValidUserMapping(sndBase, ord) && IsValidUserMapping(rcvBase, ord);
              && staleHost == old(staleHost) + (if marks && host then cpus else {})
              && staleGuest == old(staleGuest) + (if marks && guest then cpus else {})
    {
      hide Pow2, NothingRefused, IsValidUserMapping, Shape, Distinct, Received, SameStory, Partly, Translate, HwAttr,
           Flushes, SomeUncached, Marked, SomeBeyond, Masked, InReach, Starved;
      ghost var src := Now(snd);
      r := Rounds(c, snd, sndBase, rcvBase, ord, attr, host, guest, maxPhys);
      if c.flush && IsValidUserMapping(sndBase, ord) && IsValidUserMapping(rcvBase, ord) {
        if guest {
          staleGuest := staleGuest + cpus;
        }
        if host {
          staleHost := staleHost + cpus;
        }
      }
      if r.Delegated? && IsValidUserMapping(sndBase, ord) && IsValidUserMapping(rcvBase, ord) {
        WindowsGood(sndBase, rcvBase, ord);
        FormatsValid();
        if host { MaskedFrom(old(Now(hpt)), Now(hpt), src, sndBase, rcvBase, ord, attr, false, maxPhys); }
        if guest { MaskedFrom(old(Now(ept)), Now(ept), src, sndBase, rcvBase, ord, attr, true, maxPhys); }
      }
      if !r.Panicked? {
        ghost var h, g, flush := old(Now(hpt)), old(Now(ept)), old(c.flush);
        MarkedHost(h, Now(hpt), g, Now(ept), flush, c.flush, old(staleHost), staleHost, cpus);
        MarkedGuest(h, Now(hpt), g, Now(ept), flush, c.flush, old(staleGuest), staleGuest, cpus);
      }
    }

    /** Memory delegation up to its end, where the scope guard takes over. */
    method Rounds(c: Cleanup, snd: PageTable, sndBase: nat, rcvBase: nat, ord: nat, attr: nat, host: bool, guest: bool,
                  maxPhys: nat) returns (r: Delegation)
      requires Valid() && 12 <= ord && snd != ept && snd.fmt.Valid() && snd.fmt.levels == 4
      modifies hpt, hpt.pool, ept, c
      ensures !IsValidUserMapping(sndBase, ord) || !IsValidUserMapping(rcvBase, ord) ==>
                r.Delegated? && hpt.mem == old(hpt.mem) && ept.mem == old(ept.mem)
      ensures !r.Panicked? ==> Valid()
      ensures IsValidUserMapping(sndBase, ord) && IsValidUserMapping(rcvBase, ord) ==>
                && (r.Delegated? && host ==>
                      Received(old(Now(hpt)), Now(hpt), old(Now(snd)), sndBase, rcvBase, Pow2(ord), HwAttr(attr), false,
                               NothingRefused(old(Now(snd)), sndBase, ord, HwAttr(attr))))
                && (r.Delegated? && guest ==>
                      Received(old(Now(ept)), Now(ept), old(Now(snd)), sndBase, rcvBase, Pow2(ord), HwAttr(attr), true,
                               NothingRefused(old(Now(snd)), sndBase, ord, HwAttr(attr))))
                && (r.Delegated? && host && guest ==> SameStory(Now(hpt), Now(ept), rcvBase, Pow2(ord)))
                && (!r.Panicked? ==>
                      Partly(old(Now(hpt)), Now(hpt), old(Now(snd)), sndBase, rcvBase, ord, HwAttr(attr), false))
                && (!r.Panicked? ==>
                      Partly(old(Now(ept)), Now(ept), old(Now(snd)), sndBase, rcvBase, ord, HwAttr(attr), true))
      ensures !guest ==> ept.mem == old(ept.mem)
      ensures !host ==> hpt.mem == old(hpt.mem)
      ensures r.Asserts? ==> SomeUncached(old(Now(snd)), sndBase, ord)
      ensures r.InvalidMapping? ==> SomeBeyond(old(Now(snd)), sndBase, ord, maxPhys)
      ensures r.Exhausted? || r.Panicked? ==>
                && hpt.pool.avail == []
                && ((host && Starved(hpt.fmt, hpt.mem, hpt.root, rcvBase, rcvBase + Pow2(ord)))
                    || (guest && Starved(ept.fmt, ept.mem, ept.root, rcvBase, rcvBase + Pow2(ord))))
      ensures IsValidUserMapping(sndBase, ord) && IsValidUserMapping(rcvBase, ord) && r.Delegated? ==>
                && (host ==> InReach(Now(hpt), rcvBase, Pow2(ord), maxPhys))
                && (guest ==> InReach(Now(ept), rcvBase, Pow2(ord), maxPhys))
      ensures !r.Panicked? ==> Flushes(old(Now(hpt)), Now(hpt), old(Now(ept)), Now(ept), old(c.flush), c.flush)
    {
      hide Pow2, Progress, PartlyBoth, NothingRefused, IsValidUserMapping, Shape, Distinct, Received, SameStory,
           Partly, Translate, HwAttr, Flushes, SomeUncached, SomeBeyond, InReach, Starved;
      FormatsValid();
      NoFlush(Now(hpt), Now(ept), c.flush);
      ghost var h0, g0, flush0 := Now(hpt), Now(ept), c.flush;
      if !IsValidUserMapping(sndBase, ord) || !IsValidUserMapping(rcvBase, ord) {
        return Delegated;
      }
      WindowsGood(sndBase, rcvBase, ord);
      var want := HwAttr(attr);
      var sndEnd := sndBase + Pow2(ord);
      ghost var exact := NothingRefused(Now(snd), sndBase, ord, want);
      ghost var goal := Goal(Now(snd), Now(hpt), Now(ept), sndBase, rcvBase, ord, want, host, guest, exact);
      FormatsValid();
      Start(goal);
      NothingReached(Now(hpt), rcvBase, maxPhys);
      NothingReached(Now(ept), rcvBase, maxPhys);
      var cur := sndBase;
      while cur < sndEnd
        invariant sndBase <= cur <= sndEnd && cur % 4096 == 0 && Valid()
        invariant Progress(goal, cur, Now(snd), Now(hpt), Now(ept))
        invariant Flushes(h0, Now(hpt), g0, Now(ept), flush0, c.flush)
        invariant (!guest ==> ept.mem == old(ept.mem)) && (!host ==> hpt.mem == old(hpt.mem))
        invariant host ==> InReach(Now(hpt), rcvBase, cur - sndBase, maxPhys)
        invariant guest ==> InReach(Now(ept), rcvBase, cur - sndBase, maxPhys)
      {
        ghost var h, g, flush := Now(hpt), Now(ept), c.flush;
        var next;
        r, next := Round(c, snd, sndBase, rcvBase, ord, want, host, guest, maxPhys, cur, goal);
        if !r.Panicked? { FlushesOn(h0, h, Now(hpt), g0, g, Now(ept), flush0, flush, c.flush); }
        if !r.Delegated? {
          if !r.Panicked? { PartlyParts(goal, Now(hpt), Now(ept)); }
          return;
        }
        cur := next;
      }
      Finish(goal, Now(snd), Now(hpt), Now(ept));
      PartlyParts(goal, Now(hpt), Now(ept));
      return Delegated;
    }

    /** `Space_mem::revoke`: take the window away from the host and the guest, whatever rights are named. */
    method Revoke(c: Cleanup, vaddr: nat, ord: nat, maxPhys: nat) returns (r: Delegation)
      requires Valid() && 12 <= ord
      modifies hpt, hpt.pool, ept, c, this`staleHost, this`staleGuest
      ensures !r.Panicked? ==> Valid()
      ensures !IsValidUserMapping(vaddr, ord) ==> hpt.mem == old(hpt.mem) && ept.mem == old(ept.mem)
      ensures IsValidUserMapping(vaddr, ord) && r.Delegated? ==>
                && Withdrawn(old(Now(hpt)), Now(hpt), vaddr, Pow2(ord))
                && Withdrawn(old(Now(ept)), Now(ept), vaddr, Pow2(ord))
      ensures !r.Panicked? ==> Marked(old(Now(hpt)), Now(hpt), old(staleHost), staleHost, cpus)
      ensures !r.Panicked? ==> Marked(old(Now(ept)), Now(ept), old(staleGuest), staleGuest, cpus)
    {
      hide Pow2, NothingRefused, IsValidUserMapping, Shape, Distinct, Received, SameStory, Partly, Translate, HwAttr,
           Withdrawn, Marked;
      FormatsValid();
      ghost var src, h, g := Now(hpt), Now(hpt), Now(ept);
      r := Delegate(c, hpt, vaddr, vaddr, ord, 0, true, true, maxPhys);
      if r.Delegated? && IsValidUserMapping(vaddr, ord) {
        WithdrawnAll(h, Now(hpt), src, vaddr, ord, false);
        WithdrawnAll(g, Now(ept), src, vaddr, ord, true);
      }
    }

    lemma FormatsValid()
      requires Valid()
      ensures hpt.fmt.Valid() && ept.fmt.Valid()
    {
    }

    /** One round of the delegation loop, at cursor `cur`. */
    method Round(c: Cleanup, snd: PageTable, sndBase: nat, rcvBase: nat, ord: nat, want: Attr, host: bool, guest: bool,
                 maxPhys: nat, cur: nat, ghost goal: Goal) returns (r: Delegation, next: nat)
      requires Valid() && snd != ept && snd.fmt.Valid() && snd.fmt.levels == 4
      requires goal.Good() && goal.Plan() == (sndBase, rcvBase, ord, want, host, guest)
      requires GoodWindow(sndBase, ord) && GoodWindow(rcvBase, ord) && Within(sndBase, ord, cur) && cur % 4096 == 0
      requires Progress(goal, cur, Now(snd), Now(hpt), Now(ept))
      modifies hpt, hpt.pool, ept, c
      ensures !r.Panicked? ==> Valid() && PartlyBoth(goal, Now(hpt), Now(ept))
      ensures !r.Panicked? ==> Flushes(old(Now(hpt)), Now(hpt), old(Now(ept)), Now(ept), old(c.flush), c.flush)
      ensures (!guest ==> ept.mem == old(ept.mem)) && (!host ==> hpt.mem == old(hpt.mem))
      ensures r.Asserts? ==> SomeUncached(goal.src, sndBase, ord)
      ensures r.InvalidMapping? ==> SomeBeyond(goal.src, sndBase, ord, maxPhys)
      ensures r.Exhausted? || r.Panicked? ==>
                && hpt.pool.avail == []
                && ((host && Starved(hpt.fmt, hpt.mem, hpt.root, rcvBase, rcvBase + Pow2(ord)))
                    || (guest && Starved(ept.fmt, ept.mem, ept.root, rcvBase, rcvBase + Pow2(ord))))
      ensures r.Delegated? && host && InReach(old(Now(hpt)), rcvBase, cur - sndBase, maxPhys) ==>
                next >= sndBase && InReach(Now(hpt), rcvBase, next - sndBase, maxPhys)
      ensures r.Delegated? && guest && InReach(old(Now(ept)), rcvBase, cur - sndBase, maxPhys) ==>
                next >= sndBase && InReach(Now(ept), rcvBase, next - sndBase, maxPhys)
      ensures r.Delegated? ==>
                && cur < next <= sndBase + Pow2(ord) && next % 4096 == 0
                && Progress(goal, next, Now(snd), Now(hpt), Now(ept))
    {
      hide Updated, Untouched, Shape, Pow2, Distinct, RoundMapping, Progress, PartlyBoth, RoundMeans, MoveBy,
           OffsetBetween, Translate, Walk, Lookup, Downgrade, Meaning, Delegatable, Refused, InWindow, NothingRefused,
           Sending, Flushes, SomeUncached, AttrToPat, SomeBeyond, InReach, Starved, StarvedHere;
      FormatsValid();
      NoFlush(Now(hpt), Now(ept), c.flush);
      ProgressParts(goal, cur, Now(snd), Now(hpt), Now(ept));
      ghost var src, h, g := Now(snd), Now(hpt), Now(ept);
      var clamped := RoundMapping(snd.fmt, snd.mem, snd.root, want, sndBase, ord, cur);
      var target := MoveBy(clamped, OffsetBetween(sndBase, rcvBase));
      RoundFitsFrom(goal, src, cur);
      RoundMeansFrom(goal, src, cur);
      PartlyFrom(goal, cur, src, h, g);
      next := clamped.vaddr + Pow2(target.order);
      if AttrToPat(target.attr) != 0 {
        RoundAttr(snd.fmt, snd.mem, snd.root, want, sndBase, ord, cur, OffsetBetween(sndBase, rcvBase));
        UncachedFrom(goal, cur, clamped);
        return Asserts, next;
      }
      if target.attr.Present() && target.paddr + Pow2(target.order) > maxPhys {
        BeyondFrom(goal, cur, clamped, maxPhys);
        return InvalidMapping, next;
      }
      r := UpdateTables(c, target, host, guest);
      if !r.Delegated? { StarvedIn(goal, cur, clamped, target, Now(hpt), Now(ept)); }
      if r.Delegated? {
        if host { ReachStep(goal, cur, clamped, h, Now(hpt), false, maxPhys); }
        if guest { ReachStep(goal, cur, clamped, g, Now(ept), true, maxPhys); }
        ProgressStep(goal, cur, clamped, src, Now(snd), h, Now(hpt), g, Now(ept));
        PartlyFrom(goal, next, Now(snd), Now(hpt), Now(ept));
      } else if r.Exhausted? {
        PartlyStep(goal, cur, clamped, src, h, Now(hpt), g, Now(ept));
      }
    }
  }

  /** A page that could be delegated but for the memory type its bits select. */
  ghost predicate Uncached(t: Translation) {
    t.Mapped? && t.attr.Hpt? && t.attr.u && !t.attr.nodeleg && t.attr.uc
  }

  ghost predicate SomeUncached(src: View, base: nat, ord: nat)
    requires src.fmt.Valid()
  {
    exists v: nat :: Within(base, ord, v) && Uncached(src.At(v))
  }

  lemma UncachedFrom(goal: Goal, cur: nat, c: Mapping)
    requires goal.Good() && RoundFits(goal, cur, c) && RoundMeans(goal, c) && Within(goal.base, goal.ord, cur)
    requires c.attr.Present() && AttrToPat(c.attr) != 0
    ensures SomeUncached(goal.src, goal.base, goal.ord)
  {
    hide Pow2, Translate;
    assert InWindow(c, cur);
    assert Uncached(goal.src.At(cur));
  }

  lemma RoundAttr(f: Format, mem: Memory, root: Page, want: Attr, base: nat, ord: nat, cur: nat, offset: nat)
    requires f.Valid() && AttrToPat(MoveBy(RoundMapping(f, mem, root, want, base, ord, cur), offset).attr) != 0
    ensures RoundMapping(f, mem, root, want, base, ord, cur).attr.Present()
    ensures AttrToPat(RoundMapping(f, mem, root, want, base, ord, cur).attr) != 0
  {
    hide Pow2, Lookup, Or, BitScanReverse;
  }

  // ------------------------------------------------- rights by their numbers

  /**
   What the receiver has of page `src` under the rights mask `a` (1 read, 2 write, 4 execute): the same frame and
   memory type, write and execute access exactly if both the page and the mask allow it.
   */
  ghost predicate UnderMask(t: Translation, src: Translation, a: nat, guest: bool) {
    t.Mapped? ==>
      && src.Mapped? && src.attr.Hpt? && src.attr.u && !src.attr.nodeleg && a != 0 && t.paddr == src.paddr
      && if guest then
           && t.attr.Ept? && t.attr.r && t.attr.mt == src.attr.mt
           && (t.attr.w <==> src.attr.w && (a / 2) % 2 == 1) && (t.attr.x <==> !src.attr.nx && (a / 4) % 2 == 1)
         else
           && t.attr.Hpt? && t.attr.p && t.attr.u && !t.attr.nodeleg && t.attr.mt == src.attr.mt
           && (t.attr.w <==> src.attr.w && (a / 2) % 2 == 1) && (!t.attr.nx <==> !src.attr.nx && (a / 4) % 2 == 1)
  }

  /** All that is mapped in the window is for users and may be delegated. */
  ghost predicate AllUsers(src: View, base: nat, ord: nat)
    requires src.fmt.Valid()
  {
    forall v: nat | Within(base, ord, v) && src.At(v).Mapped? ::
      src.At(v).attr.Hpt? && src.At(v).attr.u && !src.At(v).attr.nodeleg
  }

  /** The window after a delegation under mask `a`; frames stay below `maxPhys`. */
  ghost predicate Masked(now: View, src: View, base: nat, rcv: nat, ord: nat, a: nat, guest: bool, maxPhys: nat)
    requires now.fmt.Valid() && src.fmt.Valid()
  {
    forall v: nat | Within(base, ord, v) ::
      && UnderMask(now.At(v - base + rcv), src.At(v), a, guest)
      && (now.At(v - base + rcv).Mapped? ==>
            now.At(v - base + rcv).paddr < maxPhys && (!guest ==> !now.At(v - base + rcv).attr.uc))
      && (AllUsers(src, base, ord) ==> (now.At(v - base + rcv).Mapped? <==> src.At(v).Mapped? && a != 0))
  }

  lemma UnderMaskFrom(t: Translation, src: Translation, a: nat, guest: bool, exact: bool)
    requires Granted(t, src, HwAttr(a), guest, exact) && (src.Mapped? ==> src.attr.Present())
    ensures UnderMask(t, src, a, guest)
    ensures exact && (src.Mapped? ==> Delegatable(src.attr)) ==> (t.Mapped? <==> src.Mapped? && a != 0)
  {
  }

  lemma MaskKind(t: Translation, src: Translation, a: nat, guest: bool)
    requires UnderMask(t, src, a, guest) && t.Mapped?
    ensures if guest then t.attr.Ept? else t.attr.Hpt?
  {
  }

  lemma MappedPresent(v: View, x: nat)
    requires v.fmt.Valid()
    ensures v.At(x).Mapped? ==> v.At(x).attr.Present()
  {
  }

  lemma MaskedFrom(was: View, now: View, src: View, base: nat, rcv: nat, ord: nat, a: nat, guest: bool, maxPhys: nat)
    requires was.fmt.Valid() && now.fmt.Valid() && src.fmt.Valid() && now.fmt.levels == 4 && GoodWindow(rcv, ord)
    requires Received(was, now, src, base, rcv, Pow2(ord), HwAttr(a), guest, NothingRefused(src, base, ord, HwAttr(a)))
    requires InReach(now, rcv, Pow2(ord), maxPhys)
    ensures Masked(now, src, base, rcv, ord, a, guest, maxPhys)
  {
    hide Pow2, Translate, HwAttr, Granted, UnderMask, Span;
    FourLevels(now.fmt);
    var exact := NothingRefused(src, base, ord, HwAttr(a));
    forall v: nat | Within(base, ord, v)
      ensures UnderMask(now.At(v - base + rcv), src.At(v), a, guest)
      ensures now.At(v - base + rcv).Mapped? ==>
                now.At(v - base + rcv).paddr < maxPhys && (!guest ==> now.At(v - base + rcv).attr.Hpt?)
                && (!guest ==> !now.At(v - base + rcv).attr.uc)
      ensures AllUsers(src, base, ord) ==> (now.At(v - base + rcv).Mapped? <==> src.At(v).Mapped? && a != 0)
    {
      var x := v - base + rcv;
      assert ReceivedAt(was, now, src, base, rcv, Pow2(ord), HwAttr(a), guest, exact, x);
      MappedPresent(src, v);
      UnderMaskFrom(now.At(x), src.At(v), a, guest, exact);
      if now.At(x).Mapped? { MaskKind(now.At(x), src.At(v), a, guest); }
    }
  }

  // -------------------------------------------------- why a delegation stops

  /** A page that could be delegated lies beyond the physical addresses. */
  ghost predicate SomeBeyond(src: View, base: nat, ord: nat, maxPhys: nat)
    requires src.fmt.Valid()
  {
    exists v: nat :: Within(base, ord, v) && src.At(v).Mapped? && Delegatable(src.At(v).attr)
                     && src.At(v).paddr >= maxPhys
  }

  lemma BeyondFrom(goal: Goal, cur: nat, c: Mapping, maxPhys: nat)
    requires goal.Good() && RoundFits(goal, cur, c) && RoundMeans(goal, c)
    requires c.attr.Present() && c.paddr + Pow2(c.order) > maxPhys
    ensures SomeBeyond(goal.src, goal.base, goal.ord, maxPhys)
  {
    hide Pow2, Translate;
    var v := c.vaddr + Pow2(c.order) - 1;
    assert InWindow(c, v);
    assert Within(goal.base, goal.ord, v) && goal.src.At(v).Mapped?;
  }

  /** What is mapped in the first `n` bytes of the window lies below `maxPhys` and is not uncached. */
  ghost predicate InReach(now: View, rcv: nat, n: nat, maxPhys: nat)
    requires now.fmt.Valid()
  {
    forall x: nat | rcv <= x < rcv + n && now.At(x).Mapped? ::
      now.At(x).paddr < maxPhys && (now.At(x).attr.Hpt? ==> !now.At(x).attr.uc)
  }

  lemma NothingReached(now: View, rcv: nat, maxPhys: nat)
    requires now.fmt.Valid()
    ensures InReach(now, rcv, 0, maxPhys)
  {
  }

  lemma ReachStep(goal: Goal, cur: nat, c: Mapping, was: View, now: View, guest: bool, maxPhys: nat)
    requires goal.Good() && RoundFits(goal, cur, c) && was.fmt.Valid() && now.fmt == was.fmt && now.root == was.root
    requires was.fmt.levels == 4 && Within(goal.base, goal.ord, cur)
    requires (c.attr.Present() ==> c.paddr + Pow2(c.order) <= maxPhys) && AttrToPat(c.attr) == 0
    requires Updated(now.fmt, now.root, was.mem, now.mem, if guest then ConvertMapping(Moved(goal, c))
                     else Moved(goal, c))
    ensures InReach(was, goal.rcv, cur - goal.base, maxPhys) ==>
              InReach(now, goal.rcv, c.vaddr + Pow2(c.order) - goal.base, maxPhys)
  {
    hide Pow2, Translate, Span;
    FourLevels(was.fmt);
    if InReach(was, goal.rcv, cur - goal.base, maxPhys) {
      forall x: nat | goal.rcv <= x < goal.rcv + (c.vaddr + Pow2(c.order) - goal.base) && now.At(x).Mapped?
        ensures now.At(x).paddr < maxPhys && (now.At(x).attr.Hpt? ==> !now.At(x).attr.uc)
      {
        assert now.At(x) == Translate(now.fmt, now.mem, now.root, x);
        assert was.At(x) == Translate(now.fmt, was.mem, now.root, x);
      }
    }
  }

  ghost predicate StarvedHere(f: Format, mem: Memory, root: Page, t: Mapping)
    requires f.Valid()
  {
    StarvedBy(f, mem, root, t.vaddr, t.vaddr + Pow2(t.order), t)
  }

  lemma StarvedAt(f: Format, places: Places, mem: Memory, root: Page, t: Mapping, o: Outcome)
    requires f.Valid() && 12 <= t.order && !o.Ok?
    requires var l := (t.order - 12) / 9;
             && (o.OutOfMemory? ==> Short(Lookup(f, mem, root, t.vaddr), l, t.attr.Present()))
             && (o.Panic? ==> FillNeed(f, places, t, l, Pow2((t.order - 12) % 9)) > 0)
    ensures StarvedHere(f, mem, root, t)
  {
    hide Pow2, FillNeed, Lookup, Short, StarvedBy;
    StarvedFrom(f, places, mem, root, t, o, t.vaddr, t.vaddr + Pow2(t.order));
  }

  lemma StarvedIn(goal: Goal, cur: nat, c: Mapping, t: Mapping, h: View, g: View)
    requires goal.Good() && RoundFits(goal, cur, c) && t == Moved(goal, c) && h.fmt.Valid() && g.fmt.Valid()
    requires (goal.toHost && StarvedHere(h.fmt, h.mem, h.root, t))
             || (goal.toGuest && StarvedHere(g.fmt, g.mem, g.root, ConvertMapping(t)))
    ensures (goal.toHost && Starved(h.fmt, h.mem, h.root, goal.rcv, goal.rcv + Pow2(goal.ord)))
            || (goal.toGuest && Starved(g.fmt, g.mem, g.root, goal.rcv, goal.rcv + Pow2(goal.ord)))
  {
    hide Pow2, Lookup, Short;
    var lo, hi := goal.rcv, goal.rcv + Pow2(goal.ord);
    if goal.toHost && StarvedHere(h.fmt, h.mem, h.root, t) {
      assert StarvedBy(h.fmt, h.mem, h.root, lo, hi, t);
    } else {
      assert StarvedBy(g.fmt, g.mem, g.root, lo, hi, ConvertMapping(t));
    }
  }

  /** A flush is asked for if a mapping that was present is no longer what `lookup` returns. */
  ghost predicate Flushes(h: View, h': View, g: View, g': View, was: bool, now: bool) {
    && (was ==> now) && h.fmt.Valid() && g.fmt.Valid() && h'.fmt == h.fmt && h'.root == h.root && g'.fmt == g.fmt
    && g'.root == g.root
    && FlushCovers(h.fmt, h.root, h.mem, h'.mem, now) && FlushCovers(g.fmt, g.root, g.mem, g'.mem, now)
  }

  lemma NoFlush(h: View, g: View, was: bool)
    requires h.fmt.Valid() && g.fmt.Valid()
    ensures Flushes(h, h, g, g, was, was)
  {
  }

  lemma FlushesOn(h0: View, h1: View, h2: View, g0: View, g1: View, g2: View, f0: bool, f1: bool, f2: bool)
    requires Flushes(h0, h1, g0, g1, f0, f1) && Flushes(h1, h2, g1, g2, f1, f2)
    ensures Flushes(h0, h2, g0, g2, f0, f2)
  {
    hide Lookup;
  }

  lemma FlushGuest(h: View, g: View, g': View, m: Mapping, was: bool, now: bool, freed: seq<Page>)
    requires h.fmt.Valid() && g.fmt.Valid() && g'.fmt == g.fmt && g'.root == g.root
    requires FlushSound(g.fmt, g.root, g.mem, g'.mem, m, was, now, freed)
    ensures Flushes(h, h, g, g', was, now)
  {
    hide Lookup, Translate;
  }

  lemma FlushHost(h: View, h': View, g: View, g': View, m: Mapping, f0: bool, f1: bool, f2: bool, freed: seq<Page>)
    requires Flushes(h, h, g, g', f0, f1) && h'.fmt == h.fmt && h'.root == h.root
    requires FlushSound(h.fmt, h.root, h.mem, h'.mem, m, f1, f2, freed)
    ensures Flushes(h, h', g, g', f0, f2)
  {
    hide Lookup, Translate;
  }

  /** All processors are marked if a translation changed that their TLBs may hold; none is ever unmarked. */
  ghost predicate Marked(was: View, now: View, stale: set<nat>, stale': set<nat>, cpus: set<nat>) {
    && stale <= stale' <= stale + cpus && was.fmt.Valid()
    && ((exists v: nat :: v < was.fmt.Limit() && Changed(was, now, v)) ==> cpus <= stale')
  }

  ghost predicate Changed(was: View, now: View, v: nat)
    requires was.fmt.Valid()
  {
    && Lookup(was.fmt, was.mem, was.root, v).attr.Present()
    && Lookup(was.fmt, now.mem, was.root, v) != Lookup(was.fmt, was.mem, was.root, v)
  }

  lemma MarkedHost(h: View, h': View, g: View, g': View, was: bool, now: bool, stale: set<nat>, stale': set<nat>,
                   cpus: set<nat>)
    requires Flushes(h, h', g, g', was, now)
    requires stale' == stale + cpus || (stale' == stale && (now ==> h'.mem == h.mem))
    ensures Marked(h, h', stale, stale', cpus)
  {
    hide Lookup;
  }

  lemma MarkedGuest(h: View, h': View, g: View, g': View, was: bool, now: bool, stale: set<nat>, stale': set<nat>,
                    cpus: set<nat>)
    requires Flushes(h, h', g, g', was, now)
    requires stale' == stale + cpus || (stale' == stale && (now ==> g'.mem == g.mem))
    ensures Marked(g, g', stale, stale', cpus)
  {
    hide Lookup;
  }

  /** A delegation: the tables as they were, and what is asked for. */
  datatype Goal = Goal(src: View, host: View, guest: View, base: nat, rcv: nat, ord: nat, want: Attr, toHost: bool,
                       toGuest: bool, exact: bool) {
    function Plan(): (nat, nat, nat, Attr, bool, bool) {
      (base, rcv, ord, want, toHost, toGuest)
    }

    ghost predicate Good() {
      && src.fmt.Valid() && host.fmt.Valid() && guest.fmt.Valid()
      && src.fmt.levels == 4 && host.fmt.levels == 4 && guest.fmt.levels == 4
      && GoodWindow(base, ord) && GoodWindow(rcv, ord)
      && (exact ==> NothingRefused(src, base, ord, want))
    }

    predicate Same(s: View, h: View, g: View) {
      && s.fmt == src.fmt && h.fmt == host.fmt && g.fmt == guest.fmt
      && s.root == src.root && h.root == host.root && g.root == guest.root
    }
  }

  /** The window is done up to `cur`. */
  ghost predicate Progress(goal: Goal, cur: nat, src: View, h: View, g: View)
    requires goal.Good()
  {
    && goal.Same(src, h, g)
    && goal.base <= cur <= goal.base + Pow2(goal.ord)
    && Sending(goal.src, src, goal.base, goal.ord, cur, goal.want, goal.exact)
    && (if goal.toHost then Received(goal.host, h, goal.src, goal.base, goal.rcv, cur - goal.base, goal.want, false,
                                     goal.exact)
        else h == goal.host)
    && (if goal.toGuest then Received(goal.guest, g, goal.src, goal.base, goal.rcv, cur - goal.base, goal.want, true,
                                      goal.exact)
        else g == goal.guest)
    && (goal.toHost && goal.toGuest ==> SameStory(h, g, goal.rcv, cur - goal.base))
  }

  lemma Start(goal: Goal)
    requires goal.Good()
    ensures Progress(goal, goal.base, goal.src, goal.host, goal.guest)
  {
    hide Translate, Downgrade;
  }

  lemma Finish(goal: Goal, src: View, h: View, g: View)
    requires goal.Good() && Progress(goal, goal.base + Pow2(goal.ord), src, h, g)
    ensures goal.toHost ==>
              Received(goal.host, h, goal.src, goal.base, goal.rcv, Pow2(goal.ord), goal.want, false, goal.exact)
    ensures goal.toGuest ==>
              Received(goal.guest, g, goal.src, goal.base, goal.rcv, Pow2(goal.ord), goal.want, true, goal.exact)
    ensures goal.toHost && goal.toGuest ==> SameStory(h, g, goal.rcv, Pow2(goal.ord))
    ensures PartlyBoth(goal, h, g)
  {
    hide Received, Sending, SameStory, Partly, Pow2;
    PartlyFrom(goal, goal.base + Pow2(goal.ord), src, h, g);
  }

  /** The clamped mapping of a round lies in the window, around the cursor. */
  predicate RoundFits(goal: Goal, cur: nat, c: Mapping) {
    && goal.base <= c.vaddr <= cur < c.vaddr + Pow2(c.order) <= goal.base + Pow2(goal.ord)
    && (c.attr.Present() ==> Delegatable(c.attr))
  }

  function Moved(goal: Goal, c: Mapping): Mapping
    requires goal.base <= c.vaddr
  {
    c.(vaddr := c.vaddr - goal.base + goal.rcv)
  }

  lemma ProgressParts(goal: Goal, cur: nat, src: View, h: View, g: View)
    requires goal.Good() && Progress(goal, cur, src, h, g)
    ensures goal.Same(src, h, g) && Sending(goal.src, src, goal.base, goal.ord, cur, goal.want, goal.exact)
  {
    hide Received, SameStory, Sending;
  }

  lemma RoundFitsFrom(goal: Goal, src: View, cur: nat)
    requires goal.Good() && src.fmt == goal.src.fmt && src.root == goal.src.root
    requires Within(goal.base, goal.ord, cur) && cur % 4096 == 0
    ensures var c := RoundMapping(src.fmt, src.mem, src.root, goal.want, goal.base, goal.ord, cur);
            var t := MoveBy(c, OffsetBetween(goal.base, goal.rcv));
            && RoundFits(goal, cur, c) && t == Moved(goal, c) && Aligned(t) && t.order <= 46 && t.vaddr < CANON_BOUND
            && (c.vaddr + Pow2(c.order)) % 4096 == 0
  {
    hide Pow2, RoundMapping, MoveBy, OffsetBetween, Translate, Meaning, Downgrade;
    RoundFacts(src.fmt, src.mem, src.root, goal.want, goal.base, goal.rcv, goal.ord, cur);
  }

  /** One round moves the whole delegation forward. */
  lemma ProgressStep(goal: Goal, cur: nat, c: Mapping, src: View, src': View, h: View, h': View, g: View, g': View)
    requires goal.Good() && RoundFits(goal, cur, c) && Progress(goal, cur, src, h, g) && goal.Same(src', h', g')
    requires RoundMeans(goal, c)
    requires if goal.toHost then Updated(h.fmt, h.root, h.mem, h'.mem, Moved(goal, c)) else h' == h
    requires if goal.toGuest then Updated(g.fmt, g.root, g.mem, g'.mem, ConvertMapping(Moved(goal, c))) else g' == g
    requires src' == src || (goal.toHost && src == h && src' == h')
    ensures Progress(goal, c.vaddr + Pow2(c.order), src', h', g')
  {
    hide Pow2, Received, SameStory, Sending, Updated, RoundMeans, NothingRefused, Translate;
    FourLevels(goal.src.fmt);
    FourLevels(goal.host.fmt);
    FourLevels(goal.guest.fmt);
    var next := c.vaddr + Pow2(c.order);
    if goal.toHost { ReceivedStep(goal, goal.host, h, h', cur, c, false); }
    if goal.toGuest { ReceivedStep(goal, goal.guest, g, g', cur, c, true); }
    if goal.toHost && goal.toGuest { SameStoryStep(goal, h, h', g, g', cur, c); }
    if src' == src { SendingOn(goal, src, cur, next); } else { SendingStep(goal, src, src', cur, c); }
  }

  ghost predicate PartlyBoth(goal: Goal, h: View, g: View)
    requires goal.Good()
  {
    && h.fmt == goal.host.fmt && g.fmt == goal.guest.fmt
    && Partly(goal.host, h, goal.src, goal.base, goal.rcv, goal.ord, goal.want, false)
    && Partly(goal.guest, g, goal.src, goal.base, goal.rcv, goal.ord, goal.want, true)
  }

  lemma PartlyParts(goal: Goal, h: View, g: View)
    requires goal.Good() && PartlyBoth(goal, h, g)
    ensures h.fmt == goal.host.fmt && g.fmt == goal.guest.fmt
    ensures Partly(goal.host, h, goal.src, goal.base, goal.rcv, goal.ord, goal.want, false)
    ensures Partly(goal.guest, g, goal.src, goal.base, goal.rcv, goal.ord, goal.want, true)
  {
    hide Partly;
  }

  lemma PartlyFrom(goal: Goal, cur: nat, src: View, h: View, g: View)
    requires goal.Good() && Progress(goal, cur, src, h, g)
    ensures PartlyBoth(goal, h, g)
  {
    hide Received, Sending, SameStory, Partly, Pow2;
    PartlyOne(goal, goal.host, h, cur, false, goal.toHost);
    PartlyOne(goal, goal.guest, g, cur, true, goal.toGuest);
  }

  /** A round that ran out of memory leaves the window partly done. */
  lemma PartlyStep(goal: Goal, cur: nat, c: Mapping, src: View, h: View, h': View, g: View, g': View)
    requires goal.Good() && RoundFits(goal, cur, c) && Progress(goal, cur, src, h, g) && goal.Same(src, h', g')
    requires RoundMeans(goal, c)
    requires h' == h || Untouched(h.fmt, h.root, h.mem, h'.mem)
    requires || g' == g
             || Untouched(g.fmt, g.root, g.mem, g'.mem)
             || (goal.toGuest && Updated(g.fmt, g.root, g.mem, g'.mem, ConvertMapping(Moved(goal, c))))
    ensures PartlyBoth(goal, h', g')
  {
    hide Pow2, Received, SameStory, Sending, Updated, Untouched, RoundMeans, Partly, NothingRefused, Translate;
    PartlyFrom(goal, cur, src, h, g);
    PartlyKept(goal, goal.host, h, h', false);
    if g' == g || Untouched(g.fmt, g.root, g.mem, g'.mem) {
      PartlyKept(goal, goal.guest, g, g', true);
    } else {
      ReceivedStep(goal, goal.guest, g, g', cur, c, true);
      PartlyOne(goal, goal.guest, g', c.vaddr + Pow2(c.order), true, true);
    }
  }

  /** Another table that uses the same allocator stays apart from what is left in it. */
  lemma PoolShrinks(f: Format, root: Page, m0: Memory, pl0: Places, pool0: seq<Page>, m1: Memory, pool1: seq<Page>,
                    freed: seq<Page>, taken: nat, others: Places)
    requires f.Valid() && Rebuilt(f, root, m0, pl0, pool0, m1, pool1, freed, taken)
    requires Distinct(pool0) && forall p | p in others :: p !in pool0
    ensures Distinct(pool1) && forall p | p in others :: p !in pool1
  {
    hide Tables;
  }

  /** Every address of the receive window has its old translation or a granted one; the rest is unchanged. */
  ghost predicate Partly(was: View, now: View, src: View, base: nat, rcv: nat, ord: nat, want: Attr, guest: bool)
    requires was.fmt.Valid() && now.fmt.Valid() && src.fmt.Valid()
  {
    forall x: nat | x < now.fmt.Limit() ::
      now.At(x) == was.At(x) || (Within(rcv, ord, x) && Granted(now.At(x), src.At(x - rcv + base), want, guest, false))
  }

  lemma PartlyOne(goal: Goal, was: View, now: View, cur: nat, guest: bool, to: bool)
    requires goal.Good() && was.fmt.Valid() && now.fmt == was.fmt && now.root == was.root
    requires goal.base <= cur <= goal.base + Pow2(goal.ord)
    requires if to then Received(was, now, goal.src, goal.base, goal.rcv, cur - goal.base, goal.want, guest, goal.exact)
             else now == was
    ensures Partly(was, now, goal.src, goal.base, goal.rcv, goal.ord, goal.want, guest)
  {
    hide Pow2, Translate, Downgrade;
    if to {
      forall x: nat | x < now.fmt.Limit()
        ensures now.At(x) == was.At(x)
             || (Within(goal.rcv, goal.ord, x)
                 && Granted(now.At(x), goal.src.At(x - goal.rcv + goal.base), goal.want, guest, false))
      {
        assert ReceivedAt(was, now, goal.src, goal.base, goal.rcv, cur - goal.base, goal.want, guest, goal.exact, x);
      }
    }
  }

  lemma PartlyKept(goal: Goal, was: View, mid: View, now: View, guest: bool)
    requires goal.Good() && was.fmt.Valid() && now.fmt == mid.fmt == was.fmt && now.root == mid.root == was.root
    requires Partly(was, mid, goal.src, goal.base, goal.rcv, goal.ord, goal.want, guest)
    requires now.mem == mid.mem || Untouched(now.fmt, now.root, mid.mem, now.mem)
    ensures Partly(was, now, goal.src, goal.base, goal.rcv, goal.ord, goal.want, guest)
  {
    hide Pow2, Downgrade, Lookup, Walk;
    forall x: nat | x < now.fmt.Limit()
      ensures now.At(x) == mid.At(x)
    {
      assert now.At(x) == Translate(now.fmt, now.mem, now.root, x);
      assert mid.At(x) == Translate(now.fmt, mid.mem, now.root, x);
    }
  }

  lemma WindowsGood(base: nat, rcv: nat, ord: nat)
    requires IsValidUserMapping(base, ord) && IsValidUserMapping(rcv, ord) && 12 <= ord
    ensures GoodWindow(base, ord) && GoodWindow(rcv, ord) && base % 4096 == 0
  {
    hide Pow2, Bits.MaxOrder;
    ValidWindow(base, ord);
    ValidWindow(rcv, ord);
    AlignedDown(base, ord, 12);
    Pow2Nine();
  }
}
