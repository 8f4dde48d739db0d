/**
 The memory of a multi-level page table and what it means: entries, the walk that
 `lookup` performs, and the tree shape that every operation keeps.
 */
module PageTableModel {
  import opened Radix

  type Page = nat

  /**
   A page-table entry, decoded from its word: the address bits, the attribute bits
   (those under ATTR::mask) and the superpage bit.
   */
  datatype Entry = Entry(frame: nat, attr: Attr, superpage: bool)

  /** Attribute bits of the host (Hpt) and the guest (Ept) page tables, by name. */
  datatype Attr =
    | Hpt(p: bool, w: bool, u: bool, uc: bool, a: bool, d: bool, g: bool, mt: nat, nodeleg: bool, nx: bool)
    | Ept(r: bool, w: bool, x: bool, mt: nat, i: bool)
  {
    /** `attr & ATTR::PTE_P`: one bit for the host, any of three for the guest. */
    predicate Present() {
      match this
      case Hpt(p, _, _, _, _, _, _, _, _, _) => p
      case Ept(r, w, x, _, _) => r || w || x
    }

    /** What the hardware lets through: read, write, user access and execution. */
    function Grant(): (bool, bool, bool, bool) {
      match this
      case Hpt(p, w, u, _, _, _, _, _, _, nx) => (p, w, u, !nx)
      case Ept(r, w, x, _, _) => (r, w, true, x)
    }
  }

  type Memory = map<Page, seq<Entry>>

  datatype Mapping = Mapping(vaddr: nat, paddr: nat, attr: Attr, order: nat)

  /** What a walker sees at one address. */
  datatype Translation = Unmapped | Mapped(paddr: nat, attr: Attr)

  /** The run-time and ATTR parameters of a page table. */
  datatype Format = Format(levels: nat, leafLevels: nat, none: Attr, allRights: Attr) {

    predicate Valid() {
      1 <= leafLevels <= levels && !none.Present() && allRights.Grant() == (true, true, true, true)
    }

    /** The all-zero entry. */
    function Empty(): Entry {
      Entry(0, none, false)
    }

    predicate IsSuperpage(l: nat, e: Entry) {
      e.attr.Present() && l < leafLevels && e.superpage
    }

    predicate IsLeaf(l: nat, e: Entry) {
      l == 0 || !e.attr.Present() || IsSuperpage(l, e)
    }

    /** First address beyond the reach of the table. */
    function Limit(): nat {
      Span(levels)
    }

    function MaxOrder(): nat {
      12 + 9 * levels
    }
  }

  function LevelOrder(l: nat): nat {
    12 + 9 * l
  }

  function Read(f: Format, mem: Memory, p: Page, i: nat): Entry {
    if p in mem && i < |mem[p]| then mem[p][i] else f.Empty()
  }

  function LeafMapping(l: nat, e: Entry, v: nat): Mapping {
    Recompose(l, v);
    Recompose(l, e.frame);
    Mapping(v - Offset(l, v), e.frame - Offset(l, e.frame), e.attr, LevelOrder(l))
  }

  /** The private `lookup`: walk from table `p` at level `l`. */
  function Walk(f: Format, mem: Memory, p: Page, l: nat, v: nat): Mapping
    decreases l
  {
    var e := Read(f, mem, p, Index(l, v));
    if f.IsLeaf(l, e) then LeafMapping(l, e, v)
    else Walk(f, mem, e.frame, l - 1, v)
  }

  function Lookup(f: Format, mem: Memory, root: Page, v: nat): Mapping
    requires f.Valid()
  {
    Walk(f, mem, root, f.levels - 1, v)
  }

  /** The translation that mapping `m` gives, or asks for, at an address of its window. */
  function Meaning(m: Mapping, v: nat): Translation {
    if m.attr.Present() && m.vaddr <= v then Mapped(m.paddr + (v - m.vaddr), m.attr) else Unmapped
  }

  function Translate(f: Format, mem: Memory, root: Page, v: nat): Translation
    requires f.Valid()
  {
    Meaning(Lookup(f, mem, root, v), v)
  }

  // ---------------------------------------------------------------- windows

  predicate InWindow(m: Mapping, v: nat) {
    m.vaddr <= v < m.vaddr + Pow2(m.order)
  }

  /** Naturally aligned, of at least page size. */
  predicate Aligned(m: Mapping) {
    12 <= m.order && m.vaddr % Pow2(m.order) == 0 && m.paddr % Pow2(m.order) == 0
  }

  /** `m` updates `Count(m, l)` consecutive entries of one table at level `l`. */
  predicate FitsLevel(m: Mapping, l: nat) {
    Aligned(m) && LevelOrder(l) <= m.order <= LevelOrder(l + 1)
  }

  function Count(m: Mapping, l: nat): nat
    requires FitsLevel(m, l)
  {
    Pow2(m.order - LevelOrder(l))
  }

  /** A window is a run of whole blocks of the level it fits, inside one table. */
  lemma CountBound(m: Mapping, l: nat)
    requires FitsLevel(m, l)
    ensures 1 <= Count(m, l) <= 512
    ensures Scale(Count(m, l), l) == Pow2(m.order)
    ensures m.vaddr == Scale(Block(l, m.vaddr), l) && m.paddr == Scale(Block(l, m.paddr), l)
    ensures Offset(l, m.vaddr) == 0 && Offset(l, m.paddr) == 0
    ensures Index(l, m.vaddr) + Count(m, l) <= 512
  {
    var r, n := m.order - LevelOrder(l), Count(m, l);
    SpanIsPow2(l);
    Pow2Sum(r, LevelOrder(l));
    ScaleIsProduct(n, l);
    Pow2Nine();
    Pow2Up(r, 9);
    AlignedBlock(m.vaddr, n, l);
    AlignedBlock(m.paddr, n, l);
    AlignedRun(Block(l, m.vaddr), n, Pow2(9 - r));
  }

  lemma AlignedBlock(a: nat, n: nat, l: nat)
    requires n >= 1 && n * Span(l) > 0 && a % (n * Span(l)) == 0
    ensures a == Scale(Block(l, a), l) && Offset(l, a) == 0 && Block(l, a) % n == 0
  {
    var k := a / (n * Span(l));
    assert a == k * (n * Span(l));
    assert a == (k * n) * Span(l);
    ScaleIsProduct(k * n, l);
    BaseOf(l, k * n);
    DivModUnique(k, 0, n);
  }

  /** An aligned run of entries does not cross the end of a table. */
  lemma AlignedRun(b: nat, n: nat, m: nat)
    requires 1 <= n && m * n == 512 && b % n == 0
    ensures b % 512 + n <= 512
  {
    var k := b / n;
    assert b == k * n;
    assert m > 0;
    var q, r := k / m, k % m;
    assert k == q * m + r;
    assert k * n == q * (m * n) + r * n;
    MulMono(r, m - 1, n);
    assert (m - 1) * n == m * n - n;
    DivModUnique(q, r * n, 512);
  }

  lemma WindowBlocks(m: Mapping, l: nat, v: nat)
    requires FitsLevel(m, l)
    ensures InWindow(m, v) <==> Block(l, m.vaddr) <= Block(l, v) < Block(l, m.vaddr) + Count(m, l)
  {
    hide Block, Offset, Span, Scale, Pow2;
    CountBound(m, l);
    BlockRange(l, v, Block(l, m.vaddr), Count(m, l));
    ScaleSum(Block(l, m.vaddr), Count(m, l), l);
  }

  /** The window lies in the single block of the level above. */
  lemma WindowParent(m: Mapping, l: nat, v: nat)
    requires FitsLevel(m, l) && InWindow(m, v)
    ensures Block(l + 1, v) == Block(l + 1, m.vaddr)
  {
    WindowBlocks(m, l, v);
    CountBound(m, l);
  }

  // ------------------------------------------------------------- tree shape

  /**
   Where a table page sits: its level, the number of the block of addresses it
   translates (at the level above), and the table that points to it.
   */
  datatype Place = Place(level: nat, block: nat, up: Page)

  type Places = map<Page, Place>

  predicate Covers(pl: Place, v: nat) {
    Block(pl.level + 1, v) == pl.block
  }

  /** A leaf that may stand at level `l`. */
  ghost predicate LeafOk(f: Format, l: nat, e: Entry) {
    && f.IsLeaf(l, e)
    && (!e.attr.Present() ==> e == f.Empty())
    && (e.superpage ==> e.attr.Present() && 0 < l < f.leafLevels)
    && (e.attr.Present() ==> Offset(l, e.frame) == 0)
  }

  ghost predicate EntryOk(f: Format, places: Places, p: Page, i: nat, e: Entry)
    requires p in places
  {
    var l, b := places[p].level, places[p].block;
    if f.IsLeaf(l, e) then LeafOk(f, l, e)
    else !e.superpage && e.attr == f.allRights && e.frame in places && places[e.frame] == Place(l - 1, b * 512 + i, p)
  }

  ghost predicate TableOk(f: Format, mem: Memory, places: Places, p: Page)
    requires p in places
  {
    && places[p].level < f.levels
    && p in mem && |mem[p]| == 512
    && forall i {:trigger EntryOk(f, places, p, i, mem[p][i])} | 0 <= i < 512 :: EntryOk(f, places, p, i, mem[p][i])
  }

  /** The table `up` names really points to `p`, from the slot of `p`'s block. */
  ghost predicate LinkedIn(f: Format, mem: Memory, places: Places, p: Page)
    requires p in places
  {
    var Place(l, b, q) := places[p];
    && q in places
    && places[q].level == l + 1 && places[q].block == b / 512
    && !f.IsLeaf(l + 1, Read(f, mem, q, b % 512))
    && Read(f, mem, q, b % 512).frame == p
  }

  ghost predicate Shape(f: Format, mem: Memory, root: Page, places: Places) {
    && f.Valid()
    && root in places && places[root].level == f.levels - 1 && places[root].block == 0 && places[root].up == root
    && (forall p {:trigger TableOk(f, mem, places, p)} | p in places :: TableOk(f, mem, places, p))
    && (forall p {:trigger LinkedIn(f, mem, places, p)} | p in places && p != root :: LinkedIn(f, mem, places, p))
    && (forall p, q | p in places && q in places
                      && places[p].level == places[q].level && places[p].block == places[q].block :: p == q)
  }

  /** The tables below the entry that translates block `c` at level `l`. */
  predicate Under(pl: Place, l: nat, c: nat) {
    pl.level < l && Up(pl.block, l - 1 - pl.level) == c
  }

  function Below(places: Places, l: nat, c: nat): set<Page> {
    set p | p in places && Under(places[p], l, c)
  }

  /** Only entry `(p, i)` of the tables in `places` may differ. */
  ghost predicate DiffersAt(f: Format, mem: Memory, mem': Memory, places: Places, p: Page, i: nat) {
    forall r, j | r in places && 0 <= j < 512 && (r != p || j != i) :: Read(f, mem', r, j) == Read(f, mem, r, j)
  }

  ghost predicate Agree(mem: Memory, mem': Memory, places: Places) {
    forall r | r in places :: r in mem && r in mem' && mem'[r] == mem[r]
  }

  lemma ChildCovers(f: Format, mem: Memory, root: Page, places: Places, p: Page, v: nat)
    requires Shape(f, mem, root, places) && p in places && Covers(places[p], v)
    requires !f.IsLeaf(places[p].level, Read(f, mem, p, Index(places[p].level, v)))
    ensures var q := Read(f, mem, p, Index(places[p].level, v)).frame;
            q in places && q != root && places[q].level == places[p].level - 1 && Covers(places[q], v)
  {
    var l := places[p].level;
    assert TableOk(f, mem, places, p);
    assert EntryOk(f, places, p, Index(l, v), mem[p][Index(l, v)]);
    var q := mem[p][Index(l, v)].frame;
    assert Block(l, v) == places[p].block * 512 + Index(l, v);
    assert TableOk(f, mem, places, root);
  }

  /** A walk from the root for an address of `p`'s block goes through `p`. */
  lemma {:induction false} WalkThrough(f: Format, mem: Memory, root: Page, places: Places, p: Page, v: nat)
    requires Shape(f, mem, root, places) && p in places && Covers(places[p], v)
    ensures Lookup(f, mem, root, v) == Walk(f, mem, p, places[p].level, v)
    decreases f.levels - places[p].level
  {
    assert TableOk(f, mem, places, p);
    if p == root {
    } else {
      assert LinkedIn(f, mem, places, p);
      var Place(l, b, q) := places[p];
      WalkThrough(f, mem, root, places, q, v);
    }
  }

  /** A write to one entry is invisible to every address outside the entry's block. */
  lemma {:induction false} WalkUnaffected(f: Format, mem: Memory, mem': Memory, root: Page, places: Places, p: Page,
                                          i: nat, q: Page, v: nat)
    requires Shape(f, mem, root, places) && p in places && q in places && Covers(places[q], v)
    requires i < 512 && DiffersAt(f, mem, mem', places, p, i)
    requires Block(places[p].level, v) != places[p].block * 512 + i
    ensures Walk(f, mem', q, places[q].level, v) == Walk(f, mem, q, places[q].level, v)
    decreases places[q].level
  {
    var l := places[q].level;
    var e := Read(f, mem, q, Index(l, v));
    assert q == p ==> Index(l, v) != i;
    assert Read(f, mem', q, Index(l, v)) == e;
    if !f.IsLeaf(l, e) {
      ChildCovers(f, mem, root, places, q, v);
      WalkUnaffected(f, mem, mem', root, places, p, i, e.frame, v);
    }
  }

  /** The same, seen from the root. */
  lemma LookupUnaffected(f: Format, mem: Memory, mem': Memory, root: Page, places: Places, p: Page, i: nat, v: nat)
    requires Shape(f, mem, root, places) && p in places && v < f.Limit()
    requires i < 512 && DiffersAt(f, mem, mem', places, p, i)
    requires Block(places[p].level, v) != places[p].block * 512 + i
    ensures Lookup(f, mem', root, v) == Lookup(f, mem, root, v)
  {
    RootBlock(f.levels, v);
    WalkUnaffected(f, mem, mem', root, places, p, i, root, v);
  }

  /** Memory that agrees on every table of the tree translates alike. */
  lemma {:induction false} WalkSame(f: Format, mem: Memory, mem': Memory, root: Page, places: Places, q: Page, v: nat)
    requires Shape(f, mem, root, places) && q in places && Covers(places[q], v)
    requires Agree(mem, mem', places)
    ensures Walk(f, mem', q, places[q].level, v) == Walk(f, mem, q, places[q].level, v)
    decreases places[q].level
  {
    assert TableOk(f, mem, places, q);
    var l := places[q].level;
    var e := Read(f, mem, q, Index(l, v));
    if !f.IsLeaf(l, e) {
      ChildCovers(f, mem, root, places, q, v);
      WalkSame(f, mem, mem', root, places, e.frame, v);
    }
  }

  lemma LookupSame(f: Format, mem: Memory, mem': Memory, root: Page, places: Places)
    requires Shape(f, mem, root, places)
    requires Agree(mem, mem', places)
    ensures forall v: nat | v < f.Limit() :: Lookup(f, mem', root, v) == Lookup(f, mem, root, v)
  {
    forall v: nat | v < f.Limit()
      ensures Lookup(f, mem', root, v) == Lookup(f, mem, root, v)
    {
      RootBlock(f.levels, v);
      WalkSame(f, mem, mem', root, places, root, v);
    }
  }

  /** Memory outside the tree does not matter to its shape. */
  lemma ShapeSame(f: Format, mem: Memory, mem': Memory, root: Page, places: Places)
    requires Shape(f, mem, root, places)
    requires Agree(mem, mem', places)
    ensures Shape(f, mem', root, places)
  {
    forall p | p in places
      ensures TableOk(f, mem', places, p)
    {
      assert TableOk(f, mem, places, p);
    }
    forall p | p in places && p != root
      ensures LinkedIn(f, mem', places, p)
    {
      assert LinkedIn(f, mem, places, p);
      assert TableOk(f, mem, places, places[p].up);
    }
  }

  // ------------------------------------------------- two kinds of tree write

  /** Tables below one block are below its parent block. */
  lemma UnderParent(pl: Place, up: Place, l: nat, c: nat)
    requires up.level == pl.level + 1 && up.block == pl.block / 512
    requires pl.level + 1 < l
    ensures Under(pl, l, c) <==> Under(up, l, c)
  {
  }

  /** A table below block `c` of level `l` implies a table exactly for that block. */
  lemma {:induction false} TopOf(f: Format, mem: Memory, root: Page, places: Places, q: Page, l: nat, c: nat)
    returns (a: Page)
    requires Shape(f, mem, root, places) && q in places && Under(places[q], l, c) && l < f.levels
    ensures a in places && a != root && places[a].level == l - 1 && places[a].block == c
    decreases l - places[q].level
  {
    if places[q].level == l - 1 {
      a := q;
    } else {
      assert q != root;
      assert LinkedIn(f, mem, places, q);
      UnderParent(places[q], places[places[q].up], l, c);
      a := TopOf(f, mem, root, places, places[q].up, l, c);
    }
  }

  lemma IsLinked(f: Format, mem: Memory, root: Page, places: Places, p: Page)
    requires Shape(f, mem, root, places) && p in places && p != root
    ensures LinkedIn(f, mem, places, p)
  {
  }

  /** Below an entry that is not a table pointer there are no tables. */
  lemma NothingBelowLeaf(f: Format, mem: Memory, root: Page, places: Places, p: Page, i: nat)
    requires Shape(f, mem, root, places) && p in places && i < 512
    requires f.IsLeaf(places[p].level, Read(f, mem, p, i))
    ensures Below(places, places[p].level, places[p].block * 512 + i) == {}
  {
    var l, c := places[p].level, places[p].block * 512 + i;
    assert TableOk(f, mem, places, p);
    forall q | q in Below(places, l, c)
      ensures false
    {
      var a := TopOf(f, mem, root, places, q, l, c);
      assert c / 512 == places[p].block && c % 512 == i;
      IsLinked(f, mem, root, places, a);
    }
  }

  function WriteAt(mem: Memory, p: Page, i: nat, e: Entry): Memory
    requires p in mem && i < |mem[p]|
  {
    mem[p := mem[p][i := e]]
  }

  /** After a cut, an entry of a remaining table still points to a remaining table. */
  lemma CutEntry(f: Format, mem: Memory, root: Page, places: Places, p: Page, i: nat, q: Page, j: nat)
    requires Shape(f, mem, root, places) && p in places && q in places && i < 512 && j < 512
    requires (q, j) != (p, i) && q in mem && |mem[q]| == 512
    requires !Under(places[q], places[p].level, places[p].block * 512 + i)
    ensures EntryOk(f, places - Below(places, places[p].level, places[p].block * 512 + i), q, j, mem[q][j])
  {
    var l, c := places[p].level, places[p].block * 512 + i;
    assert TableOk(f, mem, places, q);
    var x := mem[q][j];
    assert EntryOk(f, places, q, j, x);
    if !f.IsLeaf(places[q].level, x) && Under(places[x.frame], l, c) {
      if places[q].level < l {
        UnderParent(places[x.frame], places[q], l, c);
      }
      assert false;
    }
  }

  /** Replacing an entry by a leaf cuts off exactly the tables below it. */
  lemma CutShape(f: Format, mem: Memory, root: Page, places: Places, p: Page, i: nat, e: Entry)
    requires Shape(f, mem, root, places) && p in places && i < 512
    requires f.IsLeaf(places[p].level, e) && EntryOk(f, places, p, i, e)
    requires p in mem && |mem[p]| == 512
    ensures Shape(f, WriteAt(mem, p, i, e), root,
                  places - Below(places, places[p].level, places[p].block * 512 + i))
  {
    var l, c := places[p].level, places[p].block * 512 + i;
    var rest := places - Below(places, l, c);
    var mem' := WriteAt(mem, p, i, e);
    assert TableOk(f, mem, places, p);
    forall q | q in rest
      ensures TableOk(f, mem', rest, q)
    {
      assert TableOk(f, mem, places, q);
      forall j | 0 <= j < 512
        ensures EntryOk(f, rest, q, j, mem'[q][j])
      {
        if (q, j) != (p, i) { CutEntry(f, mem, root, places, p, i, q, j); }
      }
    }
    forall q | q in rest && q != root
      ensures LinkedIn(f, mem', rest, q)
    {
      CutLink(f, mem, root, places, p, i, e, q);
    }
  }

  /** After a cut, a remaining table is still linked in. */
  lemma CutLink(f: Format, mem: Memory, root: Page, places: Places, p: Page, i: nat, e: Entry, q: Page)
    requires Shape(f, mem, root, places) && p in places && i < 512 && q in places && q != root
    requires p in mem && |mem[p]| == 512
    requires !Under(places[q], places[p].level, places[p].block * 512 + i)
    ensures LinkedIn(f, WriteAt(mem, p, i, e), places - Below(places, places[p].level, places[p].block * 512 + i), q)
  {
    var l, c := places[p].level, places[p].block * 512 + i;
    assert LinkedIn(f, mem, places, q);
    var u := places[q].up;
    if Under(places[u], l, c) {
      UnderParent(places[q], places[u], l, c);
      assert false;
    }
    assert TableOk(f, mem, places, u);
    assert !(u == p && places[q].block % 512 == i);
  }

  /** After hanging in a table, an old table is still a table and still linked in. */
  lemma HangOld(f: Format, mem: Memory, root: Page, places: Places, p: Page, i: nat, n: Page, e: Entry, q: Page)
    requires Shape(f, mem, root, places) && p in places && i < 512 && q in places
    requires p in mem && |mem[p]| == 512
    requires places[p].level > 0 && f.IsLeaf(places[p].level, mem[p][i])
    requires n !in places && e.frame == n && !e.superpage && e.attr == f.allRights
    ensures TableOk(f, WriteAt(mem, p, i, e), places[n := Place(places[p].level - 1, places[p].block * 512 + i, p)], q)
    ensures q != root ==>
              LinkedIn(f, WriteAt(mem, p, i, e), places[n := Place(places[p].level - 1, places[p].block * 512 + i, p)],
                       q)
  {
    var all := places[n := Place(places[p].level - 1, places[p].block * 512 + i, p)];
    var mem' := WriteAt(mem, p, i, e);
    assert TableOk(f, mem, places, q);
    forall j | 0 <= j < 512
      ensures EntryOk(f, all, q, j, mem'[q][j])
    {
      assert EntryOk(f, places, q, j, mem[q][j]);
    }
    if q != root {
      assert LinkedIn(f, mem, places, q);
      assert TableOk(f, mem, places, places[q].up);
    }
  }

  /** No table sits where a leaf entry stands. */
  lemma SlotFree(f: Format, mem: Memory, root: Page, places: Places, p: Page, i: nat)
    requires Shape(f, mem, root, places) && p in places && i < 512
    requires places[p].level > 0 && f.IsLeaf(places[p].level, Read(f, mem, p, i))
    ensures forall q | q in places :: places[q].level == places[p].level - 1 ==>
            places[q].block != places[p].block * 512 + i
  {
    NothingBelowLeaf(f, mem, root, places, p, i);
    forall q | q in places && places[q].level == places[p].level - 1
      ensures places[q].block != places[p].block * 512 + i
    {
      assert q !in Below(places, places[p].level, places[p].block * 512 + i);
    }
  }

  /** Hanging a table of leaves into an entry that was a leaf. */
  lemma HangShape(f: Format, mem: Memory, root: Page, places: Places, p: Page, i: nat, n: Page, e: Entry)
    requires Shape(f, mem, root, places) && p in places && i < 512
    requires p in mem && |mem[p]| == 512
    requires places[p].level > 0 && f.IsLeaf(places[p].level, mem[p][i])
    requires n !in places && n in mem && |mem[n]| == 512
    requires e.frame == n && !e.superpage && e.attr == f.allRights
    requires forall j | 0 <= j < 512 :: LeafOk(f, places[p].level - 1, mem[n][j])
    ensures Shape(f, WriteAt(mem, p, i, e), root,
                  places[n := Place(places[p].level - 1, places[p].block * 512 + i, p)])
  {
    var l, c := places[p].level, places[p].block * 512 + i;
    var all := places[n := Place(l - 1, c, p)];
    var mem' := WriteAt(mem, p, i, e);
    assert TableOk(f, mem, places, p);
    assert c / 512 == places[p].block && c % 512 == i;
    hide Up, Span, Block;
    assert LinkedIn(f, mem', all, n);
    assert TableOk(f, mem', all, n) by {
      assert mem'[n] == mem[n];
      forall j | 0 <= j < 512 ensures EntryOk(f, all, n, j, mem'[n][j]) { assert LeafOk(f, l - 1, mem[n][j]); }
    }
    forall q | q in places
      ensures TableOk(f, mem', all, q) && (q != root ==> LinkedIn(f, mem', all, q))
    {
      HangOld(f, mem, root, places, p, i, n, e, q);
    }
    SlotFree(f, mem, root, places, p, i);
  }

  // ------------------------------------------------ what the writes translate

  /** After a leaf is written, its block translates by the leaf and all else as before. */
  lemma CutLookup(f: Format, mem: Memory, root: Page, places: Places, p: Page, i: nat, e: Entry, v: nat)
    requires Shape(f, mem, root, places) && p in places && i < 512 && v < f.Limit()
    requires f.IsLeaf(places[p].level, e) && EntryOk(f, places, p, i, e)
    requires p in mem && |mem[p]| == 512
    ensures Lookup(f, WriteAt(mem, p, i, e), root, v)
         == if Block(places[p].level, v) == places[p].block * 512 + i then LeafMapping(places[p].level, e, v)
            else Lookup(f, mem, root, v)
  {
    var mem' := WriteAt(mem, p, i, e);
    if Block(places[p].level, v) == places[p].block * 512 + i {
      CutShape(f, mem, root, places, p, i, e);
      var rest := places - Below(places, places[p].level, places[p].block * 512 + i);
      WalkThrough(f, mem', root, rest, p, v);
    } else {
      LookupUnaffected(f, mem, mem', root, places, p, i, v);
    }
  }

  /** After a table of leaves is hung in, its block translates by those leaves. */
  lemma HangLookup(f: Format, mem: Memory, root: Page, places: Places, p: Page, i: nat, n: Page, e: Entry, v: nat)
    requires Shape(f, mem, root, places) && p in places && i < 512 && v < f.Limit()
    requires p in mem && |mem[p]| == 512
    requires places[p].level > 0 && f.IsLeaf(places[p].level, mem[p][i])
    requires n !in places && n in mem && |mem[n]| == 512
    requires e.frame == n && !e.superpage && e.attr == f.allRights
    requires forall j | 0 <= j < 512 :: LeafOk(f, places[p].level - 1, mem[n][j])
    ensures Lookup(f, WriteAt(mem, p, i, e), root, v)
         == if Block(places[p].level, v) == places[p].block * 512 + i
            then LeafMapping(places[p].level - 1, mem[n][Index(places[p].level - 1, v)], v)
            else Lookup(f, mem, root, v)
  {
    var l := places[p].level;
    var mem' := WriteAt(mem, p, i, e);
    if Block(l, v) == places[p].block * 512 + i {
      HangShape(f, mem, root, places, p, i, n, e);
      var all := places[n := Place(l - 1, places[p].block * 512 + i, p)];
      WalkThrough(f, mem', root, all, n, v);
      assert LeafOk(f, l - 1, mem[n][Index(l - 1, v)]);
    } else {
      LookupUnaffected(f, mem, mem', root, places, p, i, v);
    }
  }

  /** Where the walk ends at a leaf entry, `Lookup` is that leaf's mapping. */
  lemma LeafLookup(f: Format, mem: Memory, root: Page, places: Places, p: Page, i: nat, v: nat)
    requires Shape(f, mem, root, places) && p in places && i < 512 && v < f.Limit()
    requires Block(places[p].level, v) == places[p].block * 512 + i
    requires f.IsLeaf(places[p].level, Read(f, mem, p, i))
    ensures Lookup(f, mem, root, v) == LeafMapping(places[p].level, Read(f, mem, p, i), v)
  {
    WalkThrough(f, mem, root, places, p, v);
  }

  /** One of the 512 entries that replace superpage `e` of level `l`. */
  function SplitEntry(e: Entry, l: nat, i: nat): Entry
    requires l > 0
  {
    Entry(e.frame + Scale(i, l - 1), e.attr, e.superpage && l != 1)
  }

  lemma SplitOk(f: Format, e: Entry, l: nat, i: nat)
    requires l > 0 && LeafOk(f, l, e) && f.IsSuperpage(l, e) && i < 512
    ensures LeafOk(f, l - 1, SplitEntry(e, l, i))
  {
    Shift(l - 1, e.frame, i);
  }

  /** Splitting a superpage changes no translation. */
  lemma SplitMeaning(f: Format, e: Entry, l: nat, v: nat)
    requires l > 0 && LeafOk(f, l, e) && f.IsSuperpage(l, e)
    ensures Meaning(LeafMapping(l - 1, SplitEntry(e, l, Index(l - 1, v)), v), v) == Meaning(LeafMapping(l, e, v), v)
  {
    SplitOk(f, e, l, Index(l - 1, v));
    Recompose(l, v);
    Recompose(l - 1, v);
  }

  /** An entry of the run that `m` writes means what `m` asks for. */
  lemma TargetMeaning(m: Mapping, l: nat, i: nat, e: Entry, v: nat)
    requires m.vaddr == Scale(Block(l, m.vaddr), l) && Offset(l, m.paddr) == 0 && m.attr.Present()
    requires Block(l, v) == Block(l, m.vaddr) + i
    requires e.frame == m.paddr + Scale(i, l) && e.attr == m.attr
    ensures m.vaddr <= v
    ensures Meaning(LeafMapping(l, e, v), v) == Meaning(m, v)
  {
    hide Block, Offset, Span, Scale;
    Recompose(l, v);
    ScaleSum(Block(l, m.vaddr), i, l);
    Shift(l, m.paddr, i);
  }

  ghost predicate Untouched(f: Format, root: Page, m0: Memory, m1: Memory)
    requires f.Valid()
  {
    forall v: nat | v < f.Limit() :: Translate(f, m1, root, v) == Translate(f, m0, root, v)
  }

  /** Every address translates as in `m0` or as `m` asks; outside the window as in `m0`. */
  ghost predicate Between(f: Format, root: Page, m0: Memory, m: Mapping, h: Memory)
    requires f.Valid()
  {
    forall v: nat | v < f.Limit() ::
      || Translate(f, h, root, v) == Translate(f, m0, root, v)
      || (InWindow(m, v) && Translate(f, h, root, v) == Meaning(m, v))
  }

  /** A present mapping that `lookup` no longer returns must be flushed from the TLBs. */
  ghost predicate FlushCovers(f: Format, root: Page, m0: Memory, m1: Memory, flush: bool)
    requires f.Valid()
  {
    forall v: nat | v < f.Limit() ::
      Lookup(f, m0, root, v).attr.Present() && Lookup(f, m1, root, v) != Lookup(f, m0, root, v) ==> flush
  }

  /** `m1` is `m0` with block `c` of level `l` translated by the leaf `e`. */
  ghost predicate LeafWritten(f: Format, root: Page, m0: Memory, m1: Memory, l: nat, c: nat, e: Entry)
    requires f.Valid()
  {
    forall v: nat | v < f.Limit() ::
      Lookup(f, m1, root, v) == (if Block(l, v) == c then LeafMapping(l, e, v) else Lookup(f, m0, root, v))
  }

  /** `m1` is `m0` with block `c` of level `l + 1` translated by the leaves of `t`. */
  ghost predicate TableHung(f: Format, root: Page, m0: Memory, m1: Memory, l: nat, c: nat, t: seq<Entry>)
    requires f.Valid() && |t| == 512
  {
    forall v: nat | v < f.Limit() ::
      Lookup(f, m1, root, v) ==
      (if Block(l + 1, v) == c then LeafMapping(l, t[Index(l, v)], v) else Lookup(f, m0, root, v))
  }

  lemma TreeInMemory(f: Format, mem: Memory, root: Page, places: Places)
    requires Shape(f, mem, root, places)
    ensures Agree(mem, mem, places)
  {
    forall p | p in places ensures p in mem { assert TableOk(f, mem, places, p); }
  }

  /** A prepared table that copies the superpage, or is empty where nothing was mapped. */
  ghost predicate Prepared(f: Format, e: Entry, l: nat, t: seq<Entry>)
    requires l > 0
  {
    && |t| == 512
    && forall j | 0 <= j < 512 :: t[j] == if f.IsSuperpage(l, e) then SplitEntry(e, l, j) else f.Empty()
  }

  /** All over block `c` of level `l` a table took the place of a leaf: `lookup` ends one level further down. */
  ghost predicate OneLower(f: Format, root: Page, m0: Memory, m1: Memory, l: nat, c: nat)
    requires f.Valid() && l > 0
  {
    forall v: nat | v < f.Limit() && Block(l, v) == c ::
      && Lookup(f, m0, root, v).order == LevelOrder(l) && Lookup(f, m1, root, v).order == LevelOrder(l - 1)
      && (Lookup(f, m1, root, v).attr.Present() <==> Lookup(f, m0, root, v).attr.Present())
  }

  /** Hanging in a prepared table keeps every translation. */
  lemma HungMeaning(f: Format, mem: Memory, mem': Memory, root: Page, places: Places, p: Page, i: nat, t: seq<Entry>)
    requires Shape(f, mem, root, places) && p in places && i < 512 && places[p].level > 0
    requires f.IsLeaf(places[p].level, Read(f, mem, p, i))
    requires Prepared(f, Read(f, mem, p, i), places[p].level, t)
    requires TableHung(f, root, mem, mem', places[p].level - 1, places[p].block * 512 + i, t)
    ensures Untouched(f, root, mem, mem')
    ensures FlushCovers(f, root, mem, mem', Read(f, mem, p, i).attr.Present())
    ensures OneLower(f, root, mem, mem', places[p].level, places[p].block * 512 + i)
  {
    var l, c, e := places[p].level, places[p].block * 512 + i, Read(f, mem, p, i);
    assert TableOk(f, mem, places, p);
    assert EntryOk(f, places, p, i, e);
    forall v: nat | v < f.Limit()
      ensures Translate(f, mem', root, v) == Translate(f, mem, root, v)
      ensures Lookup(f, mem', root, v) == Lookup(f, mem, root, v)
           || (Lookup(f, mem, root, v).attr.Present() ==> e.attr.Present())
      ensures Block(l, v) == c ==>
                && Lookup(f, mem, root, v).order == LevelOrder(l) && Lookup(f, mem', root, v).order == LevelOrder(l - 1)
                && (Lookup(f, mem', root, v).attr.Present() <==> Lookup(f, mem, root, v).attr.Present())
    {
      if Block(l, v) == c {
        LeafLookup(f, mem, root, places, p, i, v);
        if f.IsSuperpage(l, e) { SplitMeaning(f, e, l, v); }
      }
    }
  }

  // --------------------------------------------------------------- accounting

  function Elems(s: seq<Page>): set<Page> {
    set p | p in s
  }

  ghost predicate Distinct(s: seq<Page>) {
    forall i, j | 0 <= i < j < |s| :: s[i] != s[j]
  }

  /** No page comes before one of its children. */
  ghost predicate ChildrenFirst(places: Places, s: seq<Page>) {
    forall i, j | 0 <= i < j < |s| && s[j] in places :: places[s[j]].up != s[i]
  }

  /** The tables below the entries for blocks `lo .. lo + n` of level `l`. */
  predicate InRun(pl: Place, l: nat, lo: nat, n: nat) {
    pl.level < l && lo <= Up(pl.block, l - 1 - pl.level) < lo + n
  }

  function BelowRun(places: Places, l: nat, lo: nat, n: nat): set<Page> {
    set p | p in places && InRun(places[p], l, lo, n)
  }

  /** What lies below all 512 entries of a table lies below the entry that points to it. */
  lemma RunOfTable(pl: Place, l: nat, c: nat)
    ensures InRun(pl, l, c * 512, 512) <==> pl.level < l && Under(pl, l + 1, c)
  {
    if pl.level < l { UpAfter(pl.block, l - 1 - pl.level); }
  }

  /** A table and everything below it. */
  lemma BelowTable(f: Format, mem: Memory, root: Page, places: Places, p: Page)
    requires Shape(f, mem, root, places) && p in places
    ensures Below(places, places[p].level + 1, places[p].block)
         == BelowRun(places, places[p].level, places[p].block * 512, 512) + {p}
  {
    var l, b := places[p].level, places[p].block;
    forall q | q in places
      ensures Under(places[q], l + 1, b) <==> InRun(places[q], l, b * 512, 512) || q == p
    {
      RunOfTable(places[q], l, b);
    }
  }

  /** The parent of a table below block `c` is below `c` too, or is the table that holds the entry. */
  lemma ParentBelow(f: Format, mem: Memory, root: Page, places: Places, q: Page, l: nat, c: nat)
    requires Shape(f, mem, root, places) && q in places && Under(places[q], l, c) && l < f.levels
    ensures q != root && places[q].up in places
    ensures Under(places[places[q].up], l, c) || places[places[q].up].level == l
  {
    assert LinkedIn(f, mem, places, q);
    if places[q].level + 1 < l { UnderParent(places[q], places[places[q].up], l, c); }
  }

  /**
   From one tree and pool to the next: `freed` left the tree, each page once and
   children first, and the first `taken` pages of the pool joined it. All of this
   happened below blocks `lo .. lo + n` of level `l`.
   */
  ghost predicate Accounted(pl0: Places, pool0: seq<Page>, pl1: Places, pool1: seq<Page>, freed: seq<Page>, taken: nat,
                            l: nat, lo: nat, n: nat) {
    && taken <= |pool0| && pool1 == pool0[taken..]
    && Distinct(freed) && ChildrenFirst(pl0, freed)
    && (forall q | q in freed :: q in pl0 && InRun(pl0[q], l, lo, n))
    && (forall q | q in pool0[..taken] :: q in pl1 && InRun(pl1[q], l, lo, n))
    && pl1.Keys == (pl0.Keys - Elems(freed)) + Elems(pool0[..taken])
    && (forall q | q in pl0 && q in pl1 :: pl1[q] == pl0[q])
  }

  lemma OrderTrans(places: Places, s: seq<Page>, t: seq<Page>)
    requires Distinct(s) && Distinct(t) && ChildrenFirst(places, s) && ChildrenFirst(places, t)
    requires forall q | q in t :: q in places && q !in s && places[q].up !in s
    ensures Distinct(s + t) && ChildrenFirst(places, s + t)
  {
    forall i, j | 0 <= i < j < |s + t|
      ensures (s + t)[j] != (s + t)[i]
      ensures (s + t)[j] in places ==> places[(s + t)[j]].up != (s + t)[i]
    {
      if j >= |s| {
        assert (s + t)[j] == t[j - |s|] && t[j - |s|] in t;
        if i >= |s| { assert (s + t)[i] == t[i - |s|]; } else { assert s[i] in s; }
      }
    }
  }

  /** What the second of two adjacent runs frees was there from the start, away from the first. */
  lemma FreedApart(f: Format, mem: Memory, root: Page, pl0: Places, pool0: seq<Page>, pl1: Places, pool1: seq<Page>,
                   freed: seq<Page>, freed': seq<Page>, taken: nat, l: nat, lo: nat, n: nat, n': nat)
    requires Shape(f, mem, root, pl1) && l < f.levels
    requires forall p | p in pl0 :: p !in pool0
    requires Accounted(pl0, pool0, pl1, pool1, freed, taken, l, lo, n)
    requires forall q | q in freed' :: q in pl1 && InRun(pl1[q], l, lo + n, n')
    ensures forall q | q in freed' :: q in pl0 && pl1[q] == pl0[q] && q !in freed && pl0[q].up !in freed
  {
    forall q | q in freed
      ensures q !in pl1
    {
      assert q in Elems(freed) && q !in pool0;
    }
    forall q | q in freed'
      ensures q in pl0 && pl1[q] == pl0[q] && q !in freed && pl0[q].up !in freed
    {
      assert LinkedIn(f, mem, pl1, q);
      assert q !in pool0[..taken];
    }
  }

  /** Accounts of two adjacent runs add up. */
  lemma AccountedTrans(f: Format, mem: Memory, root: Page, pl0: Places, pool0: seq<Page>, pl1: Places, pool1: seq<Page>,
                       pl2: Places, pool2: seq<Page>, freed: seq<Page>, freed': seq<Page>, taken: nat, taken': nat,
                       l: nat, lo: nat, n: nat, n': nat)
    requires Shape(f, mem, root, pl1) && l < f.levels
    requires Distinct(pool0) && (forall p | p in pl0 :: p !in pool0)
    requires Accounted(pl0, pool0, pl1, pool1, freed, taken, l, lo, n)
    requires Accounted(pl1, pool1, pl2, pool2, freed', taken', l, lo + n, n')
    ensures Accounted(pl0, pool0, pl2, pool2, freed + freed', taken + taken', l, lo, n + n')
  {
    FreedApart(f, mem, root, pl0, pool0, pl1, pool1, freed, freed', taken, l, lo, n, n');
    forall i, j | 0 <= i < j < |freed'| && freed'[j] in pl0
      ensures pl0[freed'[j]].up != freed'[i]
    {
      assert freed'[j] in freed';
    }
    OrderTrans(pl0, freed, freed');
    KeysTrans(pl0.Keys, pl1.Keys, pl2.Keys, pool0, pool1, freed, freed', taken, taken');
    TakenTrans(pl0, pool0, pl1, pool1, pl2, pool2, freed, freed', taken, taken', l, lo, n, n');
  }

  lemma TakenTrans(pl0: Places, pool0: seq<Page>, pl1: Places, pool1: seq<Page>, pl2: Places, pool2: seq<Page>,
                   freed: seq<Page>, freed': seq<Page>, taken: nat, taken': nat, l: nat, lo: nat, n: nat, n': nat)
    requires forall p | p in pl0 :: p !in pool0
    requires Accounted(pl0, pool0, pl1, pool1, freed, taken, l, lo, n)
    requires Accounted(pl1, pool1, pl2, pool2, freed', taken', l, lo + n, n')
    requires forall q | q in freed' :: q in pl0 && pl1[q] == pl0[q]
    ensures forall q | q in pool0[..taken + taken'] :: q in pl2 && InRun(pl2[q], l, lo, n + n')
    ensures forall q | q in freed + freed' :: q in pl0 && InRun(pl0[q], l, lo, n + n')
    ensures forall q | q in pl0 && q in pl2 :: pl2[q] == pl0[q]
  {
    assert pool0[..taken + taken'] == pool0[..taken] + pool1[..taken'];
    assert forall q | q in pool1[..taken'] :: q in pool0;
    forall q | q in pool0[..taken]
      ensures q in pl2 && InRun(pl2[q], l, lo, n + n')
    {
      assert q !in freed' && q in pl1;
      assert q in pl2.Keys;
    }
    forall q | q in pl0 && q in pl2
      ensures pl2[q] == pl0[q]
    {
      assert q in pl1.Keys;
    }
  }

  lemma KeysTrans(k0: set<Page>, k1: set<Page>, k2: set<Page>, pool0: seq<Page>, pool1: seq<Page>, freed: seq<Page>,
                  freed': seq<Page>, taken: nat, taken': nat)
    requires taken <= |pool0| && pool1 == pool0[taken..] && taken' <= |pool1|
    requires k1 == (k0 - Elems(freed)) + Elems(pool0[..taken])
    requires k2 == (k1 - Elems(freed')) + Elems(pool1[..taken'])
    requires forall q | q in freed' :: q in k0
    requires forall q | q in pool0 :: q !in k0
    ensures k2 == (k0 - Elems(freed + freed')) + Elems(pool0[..taken + taken'])
  {
    assert pool0[..taken + taken'] == pool0[..taken] + pool1[..taken'];
    assert Elems(pool0[..taken + taken']) == Elems(pool0[..taken]) + Elems(pool1[..taken']);
    assert Elems(freed + freed') == Elems(freed) + Elems(freed');
    assert Elems(freed') !! Elems(pool0[..taken]);
  }

  /** Nothing is mapped in the block of level `l` around `v`. */
  ghost predicate UnmappedAround(f: Format, root: Page, mem: Memory, l: nat, v: nat)
    requires f.Valid()
  {
    forall w: nat | w < f.Limit() && Block(l, w) == Block(l, v) :: Translate(f, mem, root, w) == Unmapped
  }

  lemma MissingAround(f: Format, mem: Memory, root: Page, places: Places, p: Page, to: nat, v: nat)
    requires Shape(f, mem, root, places) && p in places && Covers(places[p], v) && to < places[p].level
    requires !Read(f, mem, p, Index(places[p].level, v)).attr.Present()
    ensures UnmappedAround(f, root, mem, to + 1, v)
  {
    var l := places[p].level;
    forall w: nat | w < f.Limit() && Block(to + 1, w) == Block(to + 1, v)
      ensures Translate(f, mem, root, w) == Unmapped
    {
      SameBlockUp(to + 1, l, w, v);
      LeafLookup(f, mem, root, places, p, Index(l, v), w);
    }
  }

  /** The first `taken` pages of the pool joined the tree as tables of level `to` or more on the way to `v`. */
  ghost predicate Grown(pl0: Places, pool0: seq<Page>, pl1: Places, pool1: seq<Page>, taken: nat, to: nat, v: nat) {
    && taken <= |pool0| && pool1 == pool0[taken..]
    && pl1.Keys == pl0.Keys + Elems(pool0[..taken])
    && (forall q | q in pl0 :: pl1[q] == pl0[q])
    && (forall q | q in pool0[..taken] :: q in pl1 && to <= pl1[q].level && Covers(pl1[q], v))
  }

  lemma GrownOne(pl0: Places, pool0: seq<Page>, pl: Place, to: nat, v: nat)
    requires pool0 != [] && pool0[0] !in pl0 && to <= pl.level && Covers(pl, v)
    ensures Grown(pl0, pool0, pl0[pool0[0] := pl], pool0[1..], 1, to, v)
  {
    assert pool0[..1] == [pool0[0]];
  }

  lemma GrownTrans(pl0: Places, pool0: seq<Page>, pl1: Places, pool1: seq<Page>, pl2: Places, pool2: seq<Page>,
                   taken: nat, taken': nat, to: nat, v: nat)
    requires Grown(pl0, pool0, pl1, pool1, taken, to, v) && Grown(pl1, pool1, pl2, pool2, taken', to, v)
    ensures Grown(pl0, pool0, pl2, pool2, taken + taken', to, v)
  {
    hide Covers;
    assert pool0[..taken + taken'] == pool0[..taken] + pool1[..taken'];
  }

  /** Lists of the pages below consecutive entries of one table, joined. */
  lemma FreedTrans(f: Format, mem: Memory, root: Page, places: Places, p: Page, i: nat, s: seq<Page>, t: seq<Page>)
    requires Shape(f, mem, root, places) && p in places && i < 512
    requires Distinct(s) && Distinct(t) && ChildrenFirst(places, s) && ChildrenFirst(places, t)
    requires Elems(s) == BelowRun(places, places[p].level, places[p].block * 512, i)
    requires Elems(t) == Below(places, places[p].level, places[p].block * 512 + i)
    ensures Distinct(s + t) && ChildrenFirst(places, s + t)
    ensures Elems(s + t) == BelowRun(places, places[p].level, places[p].block * 512, i + 1)
  {
    assert TableOk(f, mem, places, p);
    var l, c := places[p].level, places[p].block * 512 + i;
    forall q | q in t
      ensures q in places && q !in s && places[q].up !in s
    {
      assert q in Elems(t);
      ParentBelow(f, mem, root, places, q, l, c);
      assert places[q].up !in Elems(s) && q !in Elems(s);
    }
    OrderTrans(places, s, t);
    assert Elems(s + t) == Elems(s) + Elems(t);
  }

  /** The table itself comes after everything below it. */
  lemma FreedTable(f: Format, mem: Memory, root: Page, places: Places, p: Page, s: seq<Page>)
    requires Shape(f, mem, root, places) && p in places
    requires Distinct(s) && ChildrenFirst(places, s)
    requires Elems(s) == BelowRun(places, places[p].level, places[p].block * 512, 512)
    ensures Distinct(s + [p]) && ChildrenFirst(places, s + [p])
    ensures Elems(s + [p]) == Below(places, places[p].level + 1, places[p].block)
  {
    BelowTable(f, mem, root, places, p);
    assert p != root ==> LinkedIn(f, mem, places, p);
    assert p !in Elems(s) && places[p].up !in Elems(s);
    OrderTrans(places, s, [p]);
    assert Elems(s + [p]) == Elems(s) + {p};
  }

  // ------------------------------------------------------------ filling a run

  /** Blocks `lo .. lo + n` of level `l` translate as `m` asks, all others as in `m0`. */
  ghost predicate Filled(f: Format, root: Page, m0: Memory, m1: Memory, m: Mapping, l: nat, lo: nat, n: nat)
    requires f.Valid()
  {
    forall v: nat | v < f.Limit() ::
      Translate(f, m1, root, v) == (if lo <= Block(l, v) < lo + n then Meaning(m, v) else Translate(f, m0, root, v))
  }

  ghost predicate SomeMapped(f: Format, root: Page, mem: Memory, l: nat, lo: nat, n: nat)
    requires f.Valid()
  {
    exists v: nat :: v < f.Limit() && lo <= Block(l, v) < lo + n && Translate(f, mem, root, v).Mapped?
  }

  /** A flush is requested whenever one is due, and only for a reason. */
  ghost predicate FlushRight(f: Format, root: Page, m0: Memory, m1: Memory, l: nat, lo: nat, n: nat, was: bool,
                             now: bool, freed: seq<Page>)
    requires f.Valid()
  {
    && (was ==> now)
    && (freed != [] ==> now)
    && FlushCovers(f, root, m0, m1, now)
    && (now ==> was || freed != [] || SomeMapped(f, root, m0, l, lo, n))
  }

  lemma FilledTrans(f: Format, root: Page, m0: Memory, m1: Memory, m2: Memory, m: Mapping, l: nat, lo: nat, n: nat,
                    n': nat)
    requires f.Valid()
    requires Filled(f, root, m0, m1, m, l, lo, n) && Filled(f, root, m1, m2, m, l, lo + n, n')
    ensures Filled(f, root, m0, m2, m, l, lo, n + n')
  {
  }

  lemma FlushTrans(f: Format, root: Page, m0: Memory, m1: Memory, m2: Memory, m: Mapping, l: nat, lo: nat, n: nat,
                   n': nat, f0: bool, f1: bool, f2: bool, freed: seq<Page>, freed': seq<Page>)
    requires f.Valid() && Filled(f, root, m0, m1, m, l, lo, n)
    requires FlushRight(f, root, m0, m1, l, lo, n, f0, f1, freed)
    requires FlushRight(f, root, m1, m2, l, lo + n, n', f1, f2, freed')
    ensures FlushRight(f, root, m0, m2, l, lo, n + n', f0, f2, freed + freed')
  {
    if f2 && !f0 && freed + freed' == [] {
      if f1 {
        var v: nat :| v < f.Limit() && lo <= Block(l, v) < lo + n && Translate(f, m0, root, v).Mapped?;
        assert SomeMapped(f, root, m0, l, lo, n + n');
      } else {
        var v: nat :| v < f.Limit() && lo + n <= Block(l, v) < lo + n + n' && Translate(f, m1, root, v).Mapped?;
        assert Translate(f, m0, root, v).Mapped?;
        assert SomeMapped(f, root, m0, l, lo, n + n');
      }
    }
  }

  /** A step that is between `m1` and the goal is between `m0` and the goal. */
  lemma BetweenTrans(f: Format, root: Page, m0: Memory, m1: Memory, m: Mapping, l: nat, n: nat, h: Memory)
    requires f.Valid() && FitsLevel(m, l) && n <= Count(m, l)
    requires Filled(f, root, m0, m1, m, l, Block(l, m.vaddr), n) && Between(f, root, m1, m, h)
    ensures Between(f, root, m0, m, h)
  {
    forall v: nat | v < f.Limit()
      ensures Translate(f, h, root, v) == Translate(f, m0, root, v)
           || (InWindow(m, v) && Translate(f, h, root, v) == Meaning(m, v))
    {
      WindowBlocks(m, l, v);
    }
  }

  /** The part of `m` that one entry of level `l` stands for. */
  function SubMapping(m: Mapping, l: nat, i: nat): Mapping {
    Mapping(m.vaddr + Scale(i, l), m.paddr + Scale(i, l), m.attr, LevelOrder(l))
  }

  lemma SubBlock(b: nat, l: nat, i: nat)
    requires l > 0
    ensures Block(l - 1, Scale(b, l) + Scale(i, l)) == (b + i) * 512
    ensures Block(l, Scale(b, l) + Scale(i, l)) == b + i
    ensures (Scale(b, l) + Scale(i, l)) % Pow2(LevelOrder(l)) == 0
  {
    ScaleSum(b, i, l);
    ScaleAligned(b + i, l);
  }

  lemma SubFits(m: Mapping, l: nat, i: nat)
    requires FitsLevel(m, l) && l > 0
    ensures FitsLevel(SubMapping(m, l, i), l - 1)
    ensures Count(SubMapping(m, l, i), l - 1) == 512
    ensures Block(l - 1, m.vaddr + Scale(i, l)) == (Block(l, m.vaddr) + i) * 512
    ensures Block(l, m.vaddr + Scale(i, l)) == Block(l, m.vaddr) + i
  {
    CountBound(m, l);
    SubBlock(Block(l, m.vaddr), l, i);
    SubWhole(m, l, i);
  }

  lemma SubWhole(m: Mapping, l: nat, i: nat)
    requires m.vaddr == Scale(Block(l, m.vaddr), l) && m.paddr == Scale(Block(l, m.paddr), l) && l > 0
    ensures FitsLevel(SubMapping(m, l, i), l - 1)
    ensures Count(SubMapping(m, l, i), l - 1) == 512
  {
    SubBlock(Block(l, m.vaddr), l, i);
    SubBlock(Block(l, m.paddr), l, i);
    Pow2Nine();
  }

  lemma ScaleAligned(k: nat, l: nat)
    ensures Scale(k, l) % Pow2(LevelOrder(l)) == 0
    ensures Block(l, Scale(k, l)) == k
    ensures l > 0 ==> Block(l - 1, Scale(k, l)) == k * 512
  {
    ScaleIsProduct(k, l);
    SpanIsPow2(l);
    DivModUnique(k, 0, Span(l));
    BaseOf(l, k);
    if l > 0 {
      ScaleUp(k, l - 1);
      BaseOf(l - 1, k * 512);
    }
  }

  lemma SubTarget(m: Mapping, l: nat, i: nat, v: nat)
    requires m.vaddr == Scale(Block(l, m.vaddr), l) && Block(l, v) == Block(l, m.vaddr) + i
    ensures Meaning(SubMapping(m, l, i), v) == Meaning(m, v)
    ensures m.vaddr + Scale(i, l) <= v
  {
    hide Block, Offset, Span, Scale;
    Recompose(l, v);
    ScaleSum(Block(l, m.vaddr), i, l);
  }

  /** Filling all of a child table is filling the one block it stands for. */
  lemma FilledUp(f: Format, root: Page, m0: Memory, m1: Memory, m: Mapping, l: nat, i: nat)
    requires f.Valid() && FitsLevel(m, l) && l > 0
    requires Filled(f, root, m0, m1, SubMapping(m, l, i), l - 1, (Block(l, m.vaddr) + i) * 512, 512)
    ensures Filled(f, root, m0, m1, m, l, Block(l, m.vaddr) + i, 1)
  {
    var c := Block(l, m.vaddr) + i;
    CountBound(m, l);
    forall v: nat | v < f.Limit()
      ensures Translate(f, m1, root, v) ==
              (if c <= Block(l, v) < c + 1 then Meaning(m, v) else Translate(f, m0, root, v))
    {
      if Block(l, v) == c { SubTarget(m, l, i, v); }
    }
  }

  lemma BetweenUp(f: Format, root: Page, m0: Memory, m: Mapping, l: nat, i: nat, h: Memory)
    requires f.Valid() && FitsLevel(m, l) && i < Count(m, l) && l > 0
    requires Between(f, root, m0, SubMapping(m, l, i), h)
    ensures Between(f, root, m0, m, h)
  {
    var sub := SubMapping(m, l, i);
    SubFits(m, l, i);
    CountBound(m, l);
    forall v: nat | v < f.Limit()
      ensures Translate(f, h, root, v) == Translate(f, m0, root, v)
           || (InWindow(m, v) && Translate(f, h, root, v) == Meaning(m, v))
    {
      if InWindow(sub, v) {
        WindowParent(sub, l - 1, v);
        SubTarget(m, l, i, v);
        WindowBlocks(m, l, v);
      }
    }
  }

  lemma FlushUp(f: Format, root: Page, m0: Memory, m1: Memory, l: nat, c: nat, was: bool, now: bool, freed: seq<Page>)
    requires f.Valid() && l > 0
    requires FlushRight(f, root, m0, m1, l - 1, c * 512, 512, was, now, freed)
    ensures FlushRight(f, root, m0, m1, l, c, 1, was, now, freed)
  {
    if now && !was && freed == [] {
      var v: nat :| v < f.Limit() && c * 512 <= Block(l - 1, v) < c * 512 + 512 && Translate(f, m0, root, v).Mapped?;
      assert Block(l, v) == c;
    }
  }

  /** An account below a child table is an account below the entry that points to it. */
  lemma AccountedUp(pl0: Places, pool0: seq<Page>, pl1: Places, pool1: seq<Page>, freed: seq<Page>, taken: nat, l: nat,
                    c: nat)
    requires l > 0 && Accounted(pl0, pool0, pl1, pool1, freed, taken, l - 1, c * 512, 512)
    ensures Accounted(pl0, pool0, pl1, pool1, freed, taken, l, c, 1)
  {
    forall q | q in freed ensures InRun(pl0[q], l, c, 1) { RunOfTable(pl0[q], l - 1, c); }
    forall q | q in pool0[..taken] ensures q in pl1 && InRun(pl1[q], l, c, 1) { RunOfTable(pl1[q], l - 1, c); }
  }

  /** The same when the child table was just taken from the pool. */
  lemma AccountedNew(pl0: Places, pool0: seq<Page>, pl: Place, pl2: Places, pool2: seq<Page>, freed: seq<Page>,
                     taken: nat, l: nat, c: nat)
    requires l > 0 && pool0 != [] && pool0[0] !in pl0 && pl.level == l - 1 && pl.block == c
    requires Accounted(pl0[pool0[0] := pl], pool0[1..], pl2, pool2, freed, taken, l - 1, c * 512, 512)
    ensures Accounted(pl0, pool0, pl2, pool2, freed, taken + 1, l, c, 1)
  {
    var n := pool0[0];
    var pl1 := pl0[n := pl];
    AccountedUp(pl1, pool0[1..], pl2, pool2, freed, taken, l, c);
    assert n !in freed;
    assert pool0[..taken + 1] == [n] + pool0[1..][..taken];
    assert n in pl1.Keys && n !in Elems(freed) && n in pl2;
    assert pl2.Keys == (pl0.Keys - Elems(freed)) + Elems(pool0[..taken + 1]);
    forall q | q in freed ensures q in pl0 && pl1[q] == pl0[q] { }
    forall i, j | 0 <= i < j < |freed| && freed[j] in pl0
      ensures pl0[freed[j]].up != freed[i]
    {
      assert freed[j] in freed;
    }
  }

  lemma AccountedCut(pl: Places, pool: seq<Page>, freed: seq<Page>, l: nat, c: nat)
    requires Distinct(freed) && ChildrenFirst(pl, freed) && Elems(freed) == Below(pl, l, c)
    ensures Accounted(pl, pool, pl - Below(pl, l, c), pool, freed, 0, l, c, 1)
  {
    forall q | q in freed ensures q in pl && InRun(pl[q], l, c, 1) { assert q in Elems(freed); }
  }

  /** The leaf that stands for entry `i` of mapping `m` at level `l`. */
  function LeafFor(f: Format, m: Mapping, l: nat, i: nat): Entry {
    if m.attr.Present() then Entry(m.paddr + Scale(i, l), m.attr, 0 < l < f.leafLevels) else f.Empty()
  }

  lemma LeafForOk(f: Format, m: Mapping, l: nat, i: nat)
    requires f.Valid() && FitsLevel(m, l) && i < Count(m, l)
    requires m.attr.Present() ==> l < f.leafLevels
    ensures LeafOk(f, l, LeafFor(f, m, l, i))
    ensures Index(l, m.vaddr) + i < 512
    ensures Block(l + 1, m.vaddr) * 512 + (Index(l, m.vaddr) + i) == Block(l, m.vaddr) + i
  {
    CountBound(m, l);
    Shift(l, m.paddr, i);
  }

  /** Writing the leaf for entry `i` of `m` fills its block. */
  lemma LeafMeans(f: Format, root: Page, m0: Memory, m1: Memory, m: Mapping, l: nat, i: nat)
    requires f.Valid() && FitsLevel(m, l)
    requires LeafWritten(f, root, m0, m1, l, Block(l, m.vaddr) + i, LeafFor(f, m, l, i))
    ensures Filled(f, root, m0, m1, m, l, Block(l, m.vaddr) + i, 1)
  {
    CountBound(m, l);
    var e := LeafFor(f, m, l, i);
    forall v: nat | v < f.Limit() && Block(l, v) == Block(l, m.vaddr) + i
      ensures Meaning(LeafMapping(l, e, v), v) == Meaning(m, v)
    {
      if m.attr.Present() { TargetMeaning(m, l, i, e, v); }
    }
  }

  /** Replacing an entry that was present calls for a flush; replacing an empty one does not. */
  lemma LeafFlush(f: Format, m0: Memory, m1: Memory, root: Page, places: Places, p: Page, i: nat, e: Entry, flush: bool)
    requires Shape(f, m0, root, places) && p in places && i < 512
    requires LeafWritten(f, root, m0, m1, places[p].level, places[p].block * 512 + i, e)
    requires Read(f, m0, p, i).attr.Present() ==> flush
    ensures FlushCovers(f, root, m0, m1, flush)
    ensures Read(f, m0, p, i).attr.Present() && f.IsLeaf(places[p].level, Read(f, m0, p, i)) ==>
              SomeMapped(f, root, m0, places[p].level, places[p].block * 512 + i, 1)
  {
    var l, c, was := places[p].level, places[p].block * 512 + i, Read(f, m0, p, i);
    if !was.attr.Present() {
      forall v: nat | v < f.Limit() && Block(l, v) == c
        ensures !Lookup(f, m0, root, v).attr.Present()
      {
        LeafLookup(f, m0, root, places, p, i, v);
      }
    } else if f.IsLeaf(l, was) {
      var v := Scale(c, l);
      BaseOf(l, c);
      TableReach(f, m0, root, places, p, v);
      LeafLookup(f, m0, root, places, p, i, v);
    }
  }

  /** Every address of a table's block is within the reach of the page table. */
  lemma {:induction false} TableReach(f: Format, mem: Memory, root: Page, places: Places, p: Page, v: nat)
    requires Shape(f, mem, root, places) && p in places && Covers(places[p], v)
    ensures v < f.Limit()
    decreases f.levels - places[p].level
  {
    assert TableOk(f, mem, places, p);
    if p == root {
      RootBlock(f.levels, v);
    } else {
      assert LinkedIn(f, mem, places, p);
      TableReach(f, mem, root, places, places[p].up, v);
    }
  }

  /** The memory after one entry of a run is written is a legal intermediate state. */
  lemma FilledBetween(f: Format, root: Page, m0: Memory, m1: Memory, m: Mapping, l: nat, i: nat)
    requires f.Valid() && FitsLevel(m, l) && i < Count(m, l)
    requires Filled(f, root, m0, m1, m, l, Block(l, m.vaddr) + i, 1)
    ensures Between(f, root, m0, m, m1)
  {
    forall v: nat | v < f.Limit()
      ensures Translate(f, m1, root, v) == Translate(f, m0, root, v)
           || (InWindow(m, v) && Translate(f, m1, root, v) == Meaning(m, v))
    {
      WindowBlocks(m, l, v);
    }
  }

  /** Making an empty table first changes nothing about when to flush. */
  lemma FlushAfter(f: Format, root: Page, m0: Memory, m1: Memory, m2: Memory, l: nat, c: nat, was: bool, now: bool,
                   freed: seq<Page>)
    requires f.Valid() && Untouched(f, root, m0, m1) && FlushCovers(f, root, m0, m1, was)
    requires FlushRight(f, root, m1, m2, l, c, 1, was, now, freed)
    ensures FlushRight(f, root, m0, m2, l, c, 1, was, now, freed)
  {
    if now && !was && freed == [] {
      var v: nat :| v < f.Limit() && c <= Block(l, v) < c + 1 && Translate(f, m1, root, v).Mapped?;
      assert Translate(f, m0, root, v).Mapped?;
    }
  }

  lemma NothingFilled(f: Format, root: Page, mem: Memory, m: Mapping, l: nat, lo: nat, flush: bool, pl: Places,
                      pool: seq<Page>)
    requires f.Valid()
    ensures Filled(f, root, mem, mem, m, l, lo, 0)
    ensures FlushRight(f, root, mem, mem, l, lo, 0, flush, flush, [])
    ensures Accounted(pl, pool, pl, pool, [], 0, l, lo, 0)
  {
  }

  /** Tables of level `l` or more are not touched below level `l`. */
  lemma AccountedKeeps(pl0: Places, pool0: seq<Page>, pl1: Places, pool1: seq<Page>, freed: seq<Page>, taken: nat,
                       l: nat, lo: nat, n: nat, p: Page)
    requires Accounted(pl0, pool0, pl1, pool1, freed, taken, l, lo, n) && p in pl0 && l <= pl0[p].level
    ensures p in pl1 && pl1[p] == pl0[p]
  {
    assert p !in freed;
    assert p in pl1.Keys;
  }

  lemma LevelBound(f: Format, mem: Memory, root: Page, places: Places, p: Page)
    requires Shape(f, mem, root, places) && p in places
    ensures f.Valid() && places[p].level < f.levels
    ensures p in mem && |mem[p]| == 512
  {
    assert TableOk(f, mem, places, p);
  }

  lemma RunIndex(m: Mapping, l: nat, i: nat)
    requires FitsLevel(m, l) && i < Count(m, l)
    ensures Index(l, m.vaddr) + i < 512
    ensures Block(l + 1, m.vaddr) * 512 + (Index(l, m.vaddr) + i) == Block(l, m.vaddr) + i
  {
    CountBound(m, l);
  }

  lemma FilledAfter(f: Format, root: Page, m0: Memory, m1: Memory, m2: Memory, m: Mapping, l: nat, c: nat)
    requires f.Valid() && Untouched(f, root, m0, m1) && Filled(f, root, m1, m2, m, l, c, 1)
    ensures Filled(f, root, m0, m2, m, l, c, 1)
  {
  }

  lemma BetweenAfter(f: Format, root: Page, m0: Memory, m1: Memory, m: Mapping, h: Memory)
    requires f.Valid() && Untouched(f, root, m0, m1) && (h == m1 || Between(f, root, m1, m, h))
    ensures Between(f, root, m0, m, h)
  {
  }

  // ------------------------------------------------------------- reachability

  /** The tables a walk can reach from table `p` of level `l`, by the memory alone. */
  ghost function Tables(f: Format, mem: Memory, p: Page, l: nat): set<Page>
    decreases l
  {
    {p} + (set i, q {:trigger q in Tables(f, mem, Read(f, mem, p, i).frame, l - 1)} |
             0 <= i < 512 && !f.IsLeaf(l, Read(f, mem, p, i))
             && q in Tables(f, mem, Read(f, mem, p, i).frame, l - 1) :: q)
  }

  lemma ChildPlace(f: Format, mem: Memory, root: Page, places: Places, p: Page, i: nat)
    requires Shape(f, mem, root, places) && p in places && i < 512
    requires !f.IsLeaf(places[p].level, Read(f, mem, p, i))
    ensures var q := Read(f, mem, p, i).frame;
            q in places && places[p].level > 0 && places[q].level == places[p].level - 1
            && places[q].block == places[p].block * 512 + i
  {
    assert TableOk(f, mem, places, p);
    assert EntryOk(f, places, p, i, mem[p][i]);
  }

  /** The reachable tables are the ones the tree shape places below `p`. */
  lemma {:induction false} TablesBelow(f: Format, mem: Memory, root: Page, places: Places, p: Page)
    requires Shape(f, mem, root, places) && p in places
    ensures Tables(f, mem, p, places[p].level) == Below(places, places[p].level + 1, places[p].block)
    decreases places[p].level
  {
    var l, b := places[p].level, places[p].block;
    BelowTable(f, mem, root, places, p);
    forall i | 0 <= i < 512 && !f.IsLeaf(l, Read(f, mem, p, i))
      ensures l > 0 && Tables(f, mem, Read(f, mem, p, i).frame, l - 1) == Below(places, l, b * 512 + i)
    {
      ChildPlace(f, mem, root, places, p, i);
      TablesBelow(f, mem, root, places, Read(f, mem, p, i).frame);
    }
    forall q | q in BelowRun(places, l, b * 512, 512)
      ensures q in Tables(f, mem, p, l)
    {
      var i := Up(places[q].block, l - 1 - places[q].level) - b * 512;
      assert q in Below(places, l, b * 512 + i);
      if f.IsLeaf(l, Read(f, mem, p, i)) {
        NothingBelowLeaf(f, mem, root, places, p, i);
      } else {
        assert q in Tables(f, mem, Read(f, mem, p, i).frame, l - 1);
      }
    }
  }

  lemma {:induction false} AllBelowRoot(f: Format, mem: Memory, root: Page, places: Places, p: Page)
    requires Shape(f, mem, root, places) && p in places
    ensures Under(places[p], f.levels, 0)
    decreases f.levels - places[p].level
  {
    assert TableOk(f, mem, places, p);
    if p != root {
      assert LinkedIn(f, mem, places, p);
      AllBelowRoot(f, mem, root, places, places[p].up);
      UnderParent(places[p], places[places[p].up], f.levels, 0);
    }
  }

  /** The tree shape accounts for every reachable table and nothing else. */
  lemma ReachableIsPlaced(f: Format, mem: Memory, root: Page, places: Places)
    requires Shape(f, mem, root, places)
    ensures Tables(f, mem, root, f.levels - 1) == places.Keys
  {
    TablesBelow(f, mem, root, places, root);
    forall p | p in places ensures p in Below(places, f.levels, 0) { AllBelowRoot(f, mem, root, places, p); }
  }

  // ------------------------------------------------------- pages that are needed

  /** How many tables are missing between the leaf `k` that a lookup found and level `to`. */
  function WalkNeed(k: Mapping, to: nat): nat {
    if LevelOrder(to) < k.order then (k.order - LevelOrder(to)) / 9 else 0
  }

  lemma {:induction false} WalkLevel(f: Format, mem: Memory, p: Page, l: nat, v: nat) returns (k: nat)
    ensures k <= l && Walk(f, mem, p, l, v).order == LevelOrder(k)
    ensures k == l <==> f.IsLeaf(l, Read(f, mem, p, Index(l, v)))
    decreases l
  {
    var e := Read(f, mem, p, Index(l, v));
    if f.IsLeaf(l, e) { k := l; } else { k := WalkLevel(f, mem, e.frame, l - 1, v); }
  }

  lemma NeedAt(m: Mapping, k: nat, to: nat)
    requires m.order == LevelOrder(k)
    ensures WalkNeed(m, to) == if to < k then k - to else 0
  {
  }

  ghost predicate HasTable(pl: Places, l: nat, b: nat) {
    exists p :: p in pl && pl[p].level == l && pl[p].block == b
  }

  /** The tables missing to map the blocks `lo .. lo + n` of level `l` by leaves of the highest leaf level. */
  ghost function RunNeed(f: Format, pl: Places, l: nat, lo: nat, n: nat): nat
    decreases l, 1, n
  {
    if n == 0 then 0 else RunNeed(f, pl, l, lo, n - 1) + BlockNeed(f, pl, l, lo + n - 1)
  }

  /** None at the leaf levels; above, the table for the block, and those for the 512 blocks below. */
  ghost function BlockNeed(f: Format, pl: Places, l: nat, c: nat): nat
    decreases l, 0, 0
  {
    if l == 0 || l < f.leafLevels then 0
    else (if HasTable(pl, l - 1, c) then 0 else 1) + RunNeed(f, pl, l - 1, c * 512, 512)
  }

  /** The pages that filling in `m` needs. */
  ghost function FillNeed(f: Format, pl: Places, m: Mapping, l: nat, n: nat): nat {
    if m.attr.Present() then RunNeed(f, pl, l, Block(l, m.vaddr), n) else 0
  }

  /** Both trees have the same tables below the blocks. */
  ghost predicate SameTables(pl: Places, pl': Places, l: nat, lo: nat, n: nat) {
    forall k: nat, b: nat | InRun(Place(k, b, 0), l, lo, n) :: HasTable(pl, k, b) <==> HasTable(pl', k, b)
  }

  lemma {:induction false} RunFrame(f: Format, pl: Places, pl': Places, l: nat, lo: nat, n: nat)
    requires SameTables(pl, pl', l, lo, n)
    ensures RunNeed(f, pl, l, lo, n) == RunNeed(f, pl', l, lo, n)
    decreases l, 1, n
  {
    hide HasTable, Up;
    if n > 0 {
      RunFrame(f, pl, pl', l, lo, n - 1);
      BlockFrame(f, pl, pl', l, lo + n - 1);
    }
  }

  lemma {:induction false} BlockFrame(f: Format, pl: Places, pl': Places, l: nat, c: nat)
    requires SameTables(pl, pl', l, c, 1)
    ensures BlockNeed(f, pl, l, c) == BlockNeed(f, pl', l, c)
    decreases l, 0, 0
  {
    if l > 0 {
      hide HasTable, RunNeed;
      assert InRun(Place(l - 1, c, 0), l, c, 1);
      forall k: nat, b: nat | InRun(Place(k, b, 0), l - 1, c * 512, 512) ensures InRun(Place(k, b, 0), l, c, 1) {
        RunOfTable(Place(k, b, 0), l - 1, c);
      }
      RunFrame(f, pl, pl', l - 1, c * 512, 512);
    }
  }

  lemma {:induction false} LeavesNeedNone(f: Format, pl: Places, l: nat, lo: nat, n: nat)
    requires l == 0 || l < f.leafLevels
    ensures RunNeed(f, pl, l, lo, n) == 0
  {
    if n > 0 { LeavesNeedNone(f, pl, l, lo, n - 1); }
  }

  lemma {:induction false} NeedGrows(f: Format, pl: Places, l: nat, lo: nat, i: nat, n: nat)
    requires i <= n
    ensures RunNeed(f, pl, l, lo, i) <= RunNeed(f, pl, l, lo, n)
    decreases n
  {
    if i < n { NeedGrows(f, pl, l, lo, i, n - 1); }
  }

  /** What happens below one run of blocks does not matter to the next block. */
  lemma NextNeed(f: Format, pl0: Places, pool0: seq<Page>, pl1: Places, pool1: seq<Page>, freed: seq<Page>, taken: nat,
                 l: nat, lo: nat, n: nat)
    requires Accounted(pl0, pool0, pl1, pool1, freed, taken, l, lo, n) && forall p | p in pl0 :: p !in pool0
    ensures BlockNeed(f, pl1, l, lo + n) == BlockNeed(f, pl0, l, lo + n)
  {
    hide BlockNeed, Distinct, ChildrenFirst, Up;
    forall q | q in pool0[..taken] ensures q in pool0 { }
    forall k: nat, b: nat | InRun(Place(k, b, 0), l, lo + n, 1) ensures HasTable(pl0, k, b) <==> HasTable(pl1, k, b) {
      if p :| p in pl0 && pl0[p].level == k && pl0[p].block == b {
        assert p !in freed;
        assert p in pl1.Keys;
      }
      if p :| p in pl1 && pl1[p].level == k && pl1[p].block == b {
        assert p !in pool0[..taken];
        assert p in pl0.Keys;
      }
    }
    BlockFrame(f, pl0, pl1, l, lo + n);
  }

  /** A new table for block `c` leaves the need below it as it was. */
  lemma BelowNew(f: Format, pl: Places, n: Page, pl': Places, l: nat, c: nat)
    requires l > 0 && n !in pl && n in pl' && pl' == pl[n := pl'[n]] && pl'[n].level == l - 1
    ensures RunNeed(f, pl', l - 1, c * 512, 512) == RunNeed(f, pl, l - 1, c * 512, 512)
  {
    hide RunNeed, Up;
    forall k: nat, b: nat | k < l - 1 ensures HasTable(pl, k, b) <==> HasTable(pl', k, b) {
      if p :| p in pl && pl[p].level == k && pl[p].block == b { assert p in pl' && pl'[p] == pl[p]; }
      if p :| p in pl' && pl'[p].level == k && pl'[p].block == b { assert p in pl && pl'[p] == pl[p]; }
    }
    RunFrame(f, pl, pl', l - 1, c * 512, 512);
  }

  /** Tables on the way down leave the need below as it was. */
  lemma GrownNeed(f: Format, pl0: Places, pool0: seq<Page>, pl1: Places, pool1: seq<Page>, taken: nat, m: Mapping,
                  l: nat, n: nat)
    requires Grown(pl0, pool0, pl1, pool1, taken, l, m.vaddr)
    ensures FillNeed(f, pl1, m, l, n) == FillNeed(f, pl0, m, l, n)
  {
    hide RunNeed, Up, Covers, Block;
    forall k: nat, b: nat | k < l ensures HasTable(pl0, k, b) <==> HasTable(pl1, k, b) {
      if p :| p in pl0 && pl0[p].level == k && pl0[p].block == b { assert p in pl1.Keys; }
      if p :| p in pl1 && pl1[p].level == k && pl1[p].block == b {
        assert p !in pool0[..taken];
        assert p in pl0.Keys;
      }
    }
    RunFrame(f, pl0, pl1, l, Block(l, m.vaddr), n);
  }

  // ---------------------------------------------------- rights along the walk

  function Meet(a: (bool, bool, bool, bool), b: (bool, bool, bool, bool)): (bool, bool, bool, bool) {
    (a.0 && b.0, a.1 && b.1, a.2 && b.2, a.3 && b.3)
  }

  /** What the hardware lets through at `v`: what the entries of all levels on the way do. */
  function HardwareGrant(f: Format, mem: Memory, p: Page, l: nat, v: nat): (bool, bool, bool, bool)
    decreases l
  {
    var e := Read(f, mem, p, Index(l, v));
    if f.IsLeaf(l, e) then e.attr.Grant() else Meet(e.attr.Grant(), HardwareGrant(f, mem, e.frame, l - 1, v))
  }

  /** The tables on the way restrict nothing: the hardware grants what `lookup` returns. */
  lemma {:induction false} GrantIsLookup(f: Format, mem: Memory, root: Page, places: Places, p: Page, v: nat)
    requires Shape(f, mem, root, places) && p in places && Covers(places[p], v)
    ensures HardwareGrant(f, mem, p, places[p].level, v) == Walk(f, mem, p, places[p].level, v).attr.Grant()
    decreases places[p].level
  {
    var l := places[p].level;
    assert TableOk(f, mem, places, p);
    var e := Read(f, mem, p, Index(l, v));
    assert EntryOk(f, places, p, Index(l, v), e);
    if !f.IsLeaf(l, e) {
      ChildCovers(f, mem, root, places, p, v);
      GrantIsLookup(f, mem, root, places, e.frame, v);
    }
  }

  // -------------------------------------------------- what `update` guarantees

  ghost predicate Updated(f: Format, root: Page, m0: Memory, m1: Memory, m: Mapping)
    requires f.Valid()
  {
    forall v: nat | v < f.Limit() ::
      Translate(f, m1, root, v) == (if InWindow(m, v) then Meaning(m, v) else Translate(f, m0, root, v))
  }

  /**
   `freed` is exactly what is no longer reachable, each page once and children first,
   and the newly reachable tables are exactly the first `taken` pages of the pool.
   */
  ghost predicate Rebuilt(f: Format, root: Page, m0: Memory, pl0: Places, pool0: seq<Page>, m1: Memory,
                          pool1: seq<Page>, freed: seq<Page>, taken: nat)
    requires f.Valid()
  {
    var before, after := Tables(f, m0, root, f.levels - 1), Tables(f, m1, root, f.levels - 1);
    && taken <= |pool0| && pool1 == pool0[taken..]
    && Distinct(freed) && ChildrenFirst(pl0, freed)
    && Elems(freed) == before - after
    && Elems(pool0[..taken]) == after - before
  }

  /**
   A flush is requested if a present mapping is no longer what `lookup` returns or a
   table is freed, and then only if something in the window was mapped or freed.
   */
  ghost predicate FlushSound(f: Format, root: Page, m0: Memory, m1: Memory, m: Mapping, was: bool, now: bool,
                             freed: seq<Page>)
    requires f.Valid()
  {
    && (was ==> now)
    && (freed != [] ==> now)
    && FlushCovers(f, root, m0, m1, now)
    && (now && !was && freed == [] ==>
          exists v: nat :: v < f.Limit() && InWindow(m, v) && Translate(f, m0, root, v).Mapped?)
  }

  lemma UpdateLevel(f: Format, mem: Memory, root: Page, places: Places, m: Mapping)
    requires Shape(f, mem, root, places) && Aligned(m) && m.order < f.MaxOrder() && m.vaddr < f.Limit()
    ensures FitsLevel(m, (m.order - 12) / 9) && (m.order - 12) / 9 <= f.levels - 1
    ensures root in places && places[root].level == f.levels - 1 && Covers(places[root], m.vaddr)
    ensures f.Valid() && InWindow(m, m.vaddr)
  {
    RootBlock(f.levels, m.vaddr);
  }

  lemma UpdatedMissing(f: Format, root: Page, m0: Memory, m1: Memory, m: Mapping, l: nat)
    requires f.Valid() && FitsLevel(m, l) && !m.attr.Present()
    requires Untouched(f, root, m0, m1) && UnmappedAround(f, root, m1, l + 1, m.vaddr)
    ensures Updated(f, root, m0, m1, m)
  {
    forall v: nat | v < f.Limit() && InWindow(m, v)
      ensures Translate(f, m1, root, v) == Meaning(m, v)
    {
      WindowParent(m, l, v);
    }
  }

  lemma UpdatedFilled(f: Format, root: Page, m0: Memory, m1: Memory, m2: Memory, m: Mapping, l: nat)
    requires f.Valid() && FitsLevel(m, l)
    requires Untouched(f, root, m0, m1) && Filled(f, root, m1, m2, m, l, Block(l, m.vaddr), Count(m, l))
    ensures Updated(f, root, m0, m2, m)
  {
    forall v: nat | v < f.Limit()
      ensures Translate(f, m2, root, v) == (if InWindow(m, v) then Meaning(m, v) else Translate(f, m0, root, v))
    {
      WindowBlocks(m, l, v);
    }
  }

  lemma FlushDescent(f: Format, root: Page, m0: Memory, m1: Memory, m: Mapping, was: bool, now: bool)
    requires f.Valid() && (was ==> now) && FlushCovers(f, root, m0, m1, now) && m.vaddr < f.Limit()
    requires InWindow(m, m.vaddr)
    requires now && !was ==> Translate(f, m0, root, m.vaddr).Mapped?
    ensures FlushSound(f, root, m0, m1, m, was, now, [])
  {
  }

  lemma FlushBoth(f: Format, root: Page, m0: Memory, m1: Memory, m2: Memory, m: Mapping, l: nat, was: bool, mid: bool,
                  now: bool, freed: seq<Page>)
    requires f.Valid() && FitsLevel(m, l) && m.vaddr < f.Limit() && InWindow(m, m.vaddr)
    requires Untouched(f, root, m0, m1) && FlushCovers(f, root, m0, m1, mid) && (was ==> mid)
    requires mid && !was ==> Translate(f, m0, root, m.vaddr).Mapped?
    requires FlushRight(f, root, m1, m2, l, Block(l, m.vaddr), Count(m, l), mid, now, freed)
    ensures FlushSound(f, root, m0, m2, m, was, now, freed)
  {
    if now && !mid && freed == [] {
      var v: nat :| v < f.Limit() && Block(l, m.vaddr) <= Block(l, v) < Block(l, m.vaddr) + Count(m, l)
                    && Translate(f, m1, root, v).Mapped?;
      WindowBlocks(m, l, v);
      assert Translate(f, m0, root, v).Mapped?;
    }
  }

  lemma RebuiltGrown(f: Format, root: Page, m0: Memory, pl0: Places, pool0: seq<Page>, m1: Memory, pl1: Places,
                     pool1: seq<Page>, taken: nat, to: nat, v: nat)
    requires Shape(f, m0, root, pl0) && Shape(f, m1, root, pl1)
    requires forall p | p in pl0 :: p !in pool0
    requires Grown(pl0, pool0, pl1, pool1, taken, to, v)
    ensures Rebuilt(f, root, m0, pl0, pool0, m1, pool1, [], taken)
  {
    ReachableIsPlaced(f, m0, root, pl0);
    ReachableIsPlaced(f, m1, root, pl1);
    assert Elems(pool0[..taken]) !! pl0.Keys;
  }

  lemma RebuiltBoth(f: Format, root: Page, m0: Memory, pl0: Places, pool0: seq<Page>, m1: Memory, pl1: Places,
                    pool1: seq<Page>, m2: Memory, pl2: Places, pool2: seq<Page>, taken: nat, freed: seq<Page>,
                    taken': nat, l: nat, lo: nat, n: nat, v: nat)
    requires Shape(f, m0, root, pl0) && Shape(f, m2, root, pl2)
    requires forall p | p in pl0 :: p !in pool0
    requires Grown(pl0, pool0, pl1, pool1, taken, l, v)
    requires Accounted(pl1, pool1, pl2, pool2, freed, taken', l, lo, n)
    requires Distinct(pool0)
    ensures Rebuilt(f, root, m0, pl0, pool0, m2, pool2, freed, taken + taken')
  {
    hide Tables, Shape, InRun, Up;
    ReachableIsPlaced(f, m0, root, pl0);
    ReachableIsPlaced(f, m2, root, pl2);
    OldFreed(pl0, pool0, pl1, pool1, pl2, pool2, taken, freed, taken', l, lo, n, v);
    KeysTrans(pl0.Keys, pl1.Keys, pl2.Keys, pool0, pool1, [], freed, taken, taken');
    assert [] + freed == freed;
    Difference(pl0.Keys, Elems(freed), Elems(pool0[..taken + taken']));
  }

  lemma Difference(before: set<Page>, gone: set<Page>, come: set<Page>)
    requires gone <= before && come !! before
    ensures before - ((before - gone) + come) == gone
    ensures ((before - gone) + come) - before == come
  {
  }

  /** What filling frees was in the tree before the walk down. */
  lemma OldFreed(pl0: Places, pool0: seq<Page>, pl1: Places, pool1: seq<Page>, pl2: Places, pool2: seq<Page>,
                 taken: nat, freed: seq<Page>, taken': nat, l: nat, lo: nat, n: nat, v: nat)
    requires Grown(pl0, pool0, pl1, pool1, taken, l, v)
    requires Accounted(pl1, pool1, pl2, pool2, freed, taken', l, lo, n)
    ensures forall q | q in freed :: q in pl0 && pl1[q] == pl0[q]
    ensures ChildrenFirst(pl0, freed)
  {
    forall q | q in freed
      ensures q in pl0 && pl1[q] == pl0[q]
    {
      assert q !in pool0[..taken];
      assert q in pl1.Keys;
    }
    forall i, j | 0 <= i < j < |freed| && freed[j] in pl0
      ensures pl0[freed[j]].up != freed[i]
    {
      assert freed[j] in freed;
    }
  }

  // ------------------------------------------------------- what lookup returns

  lemma LeafBase(l: nat, e: Entry, v: nat)
    ensures LeafMapping(l, e, v).vaddr == Scale(Block(l, v), l)
    ensures LeafMapping(l, e, v).paddr == Scale(Block(l, e.frame), l)
  {
    hide Block, Offset, Span, Scale;
    Recompose(l, v);
    Recompose(l, e.frame);
  }

  /** All addresses of one leaf block get the same answer from a walk. */
  lemma {:induction false} WalkUniform(f: Format, mem: Memory, p: Page, l: nat, v: nat) returns (k: nat)
    ensures k <= l
    ensures Walk(f, mem, p, l, v).order == LevelOrder(k)
    ensures Walk(f, mem, p, l, v).vaddr == Scale(Block(k, v), k)
    ensures exists b :: Walk(f, mem, p, l, v).paddr == Scale(b, k)
    ensures forall w: nat | Block(k, w) == Block(k, v) :: Walk(f, mem, p, l, w) == Walk(f, mem, p, l, v)
    decreases l
  {
    var e := Read(f, mem, p, Index(l, v));
    if f.IsLeaf(l, e) {
      k := l;
      LeafBase(l, e, v);
      forall w: nat | Block(k, w) == Block(k, v)
        ensures Walk(f, mem, p, l, w) == Walk(f, mem, p, l, v)
      {
        LeafBase(l, e, w);
      }
    } else {
      k := WalkUniform(f, mem, e.frame, l - 1, v);
      forall w: nat | Block(k, w) == Block(k, v)
        ensures Walk(f, mem, p, l, w) == Walk(f, mem, p, l, v)
      {
        SameBlockUp(k, l, w, v);
      }
    }
  }

  /** `lookup` returns a naturally aligned mapping around `v`, the same for all its addresses. */
  lemma LookupFacts(f: Format, mem: Memory, root: Page, v: nat)
    requires f.Valid()
    ensures var m := Lookup(f, mem, root, v);
            && 12 <= m.order < f.MaxOrder() && Aligned(m) && InWindow(m, v)
            && forall w: nat | InWindow(m, w) :: Lookup(f, mem, root, w) == m
  {
    var m := Lookup(f, mem, root, v);
    var k := WalkUniform(f, mem, root, f.levels - 1, v);
    var b :| m.paddr == Scale(b, k);
    ScaleAligned(Block(k, v), k);
    ScaleAligned(b, k);
    SpanIsPow2(k);
    assert Pow2(m.order) == Span(k);
    forall w: nat
      ensures InWindow(m, w) <==> Block(k, w) == Block(k, v)
    {
      BlockRange(k, w, Block(k, v), 1);
      ScaleSum(Block(k, v), 1, k);
    }
  }

  // ------------------------------------------------- where tables come and go

  /**
   Tables stay where they are; every new one lies on the way to an address of the window,
   and everything below a freed one is in the window.
   */
  ghost predicate Relocated(pl0: Places, pl1: Places, m: Mapping, freed: seq<Page>) {
    && (forall q | q in pl0 && q in pl1 :: pl1[q] == pl0[q])
    && (forall q | q in pl1 && q !in pl0 :: OnWayIn(pl1[q], m))
    && (forall q | q in freed :: q in pl0 && AllIn(pl0[q], m))
    && (forall q | q in pl0 && q !in freed :: q in pl1)
  }

  ghost predicate OnWayIn(pl: Place, m: Mapping) {
    exists v: nat :: InWindow(m, v) && Covers(pl, v)
  }

  ghost predicate AllIn(pl: Place, m: Mapping) {
    forall v: nat | Covers(pl, v) :: InWindow(m, v)
  }

  lemma RunInWindow(pl: Place, m: Mapping, l: nat)
    requires FitsLevel(m, l) && InRun(pl, l, Block(l, m.vaddr), Count(m, l))
    ensures AllIn(pl, m) && OnWayIn(pl, m)
  {
    hide Pow2, Block, Up, Count, FitsLevel;
    forall v: nat | Covers(pl, v) ensures InWindow(m, v) {
      BlockUp(pl.level + 1, l - 1 - pl.level, v);
      WindowBlocks(m, l, v);
    }
    BaseOf(pl.level + 1, pl.block);
    assert Covers(pl, Scale(pl.block, pl.level + 1));
  }

  lemma RelocatedBoth(pl0: Places, pool0: seq<Page>, pl1: Places, pool1: seq<Page>, pl2: Places, pool2: seq<Page>,
                      m: Mapping, taken: nat, freed: seq<Page>, taken': nat, l: nat)
    requires Grown(pl0, pool0, pl1, pool1, taken, l, m.vaddr) && FitsLevel(m, l) && InWindow(m, m.vaddr)
    requires Accounted(pl1, pool1, pl2, pool2, freed, taken', l, Block(l, m.vaddr), Count(m, l))
    ensures Relocated(pl0, pl2, m, freed)
  {
    hide Pow2, Block, Up, Count, FitsLevel, InRun, AllIn, InWindow, Covers;
    OldFreed(pl0, pool0, pl1, pool1, pl2, pool2, taken, freed, taken', l, Block(l, m.vaddr), Count(m, l), m.vaddr);
    forall q | q in pl2 && q !in pl0 ensures OnWayIn(pl2[q], m) {
      if q in pl1 {
        assert q in Elems(pool0[..taken]);
      } else {
        assert q in Elems(pool1[..taken']);
        RunInWindow(pl2[q], m, l);
      }
    }
    forall q | q in freed ensures q in pl0 && AllIn(pl0[q], m) { RunInWindow(pl1[q], m, l); }
    forall q | q in pl0 && q !in freed ensures q in pl2 { assert q in pl1.Keys; }
  }

  lemma RelocatedGrown(pl0: Places, pool0: seq<Page>, pl1: Places, pool1: seq<Page>, m: Mapping, taken: nat, l: nat)
    requires Grown(pl0, pool0, pl1, pool1, taken, l, m.vaddr) && InWindow(m, m.vaddr)
    ensures Relocated(pl0, pl1, m, [])
  {
    hide Covers, InWindow;
    forall q | q in pl1 && q !in pl0 ensures OnWayIn(pl1[q], m) { assert q in Elems(pool0[..taken]); }
  }
}
