/**
 Any number of `update` and `lookup` calls on one page table at the same time, one access to memory at a time.
 Tables that are cut off are kept until all calls are over, as the deferred cleanup promises.
 */
module ConcurrentTables {
  import opened Options
  import opened Radix
  import opened PageTableModel

  /** The calls of `fill_entries` in progress: the entry `i` of `m` in `table` is next, then those of the caller. */
  datatype Frames = Bottom | Frame(table: Page, level: nat, m: Mapping, i: nat, caller: Frames)

  /** Where an update stands. Tables on the way down have level `under + 1`. */
  datatype Updater =
    | Down(table: Page, under: nat)                  // walk: about to read the entry
    | Split(table: Page, under: nat, seen: Entry)    // walk: about to put a table in place of the leaf it saw
    | Fill(frames: Frames)                           // about to exchange or to read the next entry
    | Link(frames: Frames, seen: Entry)              // about to put a table in place of the empty entry it saw
    | Done
    | Failed                                         // out of memory

  /** Where a lookup stands. */
  datatype Reader = Looking(v: nat, table: Page, level: nat) | Found(v: nat, m: Mapping)

  datatype State = State(mem: Memory, updates: seq<Updater>, lookups: seq<Reader>)

  /** What does not change: the format, the root, the memory at the start and the mappings asked for. */
  datatype Setup = Setup(f: Format, root: Page, start: Memory, asked: seq<Mapping>)

  /** The next action of an update, with the page the allocator would hand out, or of a lookup. */
  datatype Move = Update(u: nat, page: Option<Page>) | Lookup(r: nat)

  function Target(m: Mapping): nat {
    if m.order < 12 then 0 else (m.order - 12) / 9
  }

  /** Arriving at a table of level `l` on the way down. */
  function Enter(m: Mapping, p: Page, l: nat): Updater {
    if l <= Target(m) then Fill(Frame(p, l, m, 0, Bottom)) else Down(p, l - 1)
  }

  function Entries(m: Mapping, l: nat): nat {
    if LevelOrder(l) <= m.order then Pow2(m.order - LevelOrder(l)) else 0
  }

  function Store(mem: Memory, p: Page, i: nat, e: Entry): Memory {
    if p in mem && i < |mem[p]| then WriteAt(mem, p, i, e) else mem
  }

  /** The content of a new table for a leaf of level `l`. */
  function NewTable(f: Format, e: Entry, l: nat): seq<Entry>
    requires l > 0
  {
    seq(512, (j: nat) => if f.IsSuperpage(l, e) then SplitEntry(e, l, j) else f.Empty())
  }

  /** A successful compare-and-swap: the prepared page and the pointer to it. */
  function Hang(f: Format, mem: Memory, p: Page, i: nat, l: nat, e: Entry, n: Page): Memory
    requires l > 0
  {
    Store(mem[n := NewTable(f, e, l)], p, i, Entry(n, f.allRights, false))
  }

  /** One access to memory of an update that asks for `req`, and where it leads. */
  function UpdateStep(f: Format, mem: Memory, req: Mapping, pc: Updater, page: Option<Page>): (Memory, Updater) {
    match pc
    case Down(p, under) =>
      var e := Read(f, mem, p, Index(under + 1, req.vaddr));
      if !e.attr.Present() && !req.attr.Present() then (mem, Done)
      else if f.IsLeaf(under + 1, e) then (mem, Split(p, under, e))
      else (mem, Enter(req, e.frame, under))
    case Split(p, under, seen) =>
      if page.None? then (mem, Failed)
      else if Read(f, mem, p, Index(under + 1, req.vaddr)) != seen then (mem, Down(p, under))
      else (Hang(f, mem, p, Index(under + 1, req.vaddr), under + 1, seen, page.value), Enter(req, page.value, under))
    case Fill(fr) => FillStep(f, mem, fr)
    case Link(fr, seen) =>
      if fr.Bottom? || fr.level == 0 || page.None? then (mem, Failed)
      else if Read(f, mem, fr.table, Index(fr.level, fr.m.vaddr) + fr.i) != seen then (mem, Fill(fr))
      else (Hang(f, mem, fr.table, Index(fr.level, fr.m.vaddr) + fr.i, fr.level, seen, page.value),
            Fill(Called(fr, page.value)))
    case Done => (mem, Done)
    case Failed => (mem, Failed)
  }

  /** `fill_entries` calls itself for the table behind the entry. */
  function Called(fr: Frames, p: Page): Frames
    requires fr.Frame? && fr.level > 0
  {
    Frame(p, fr.level - 1, SubMapping(fr.m, fr.level, fr.i), 0, fr)
  }

  function FillStep(f: Format, mem: Memory, fr: Frames): (Memory, Updater) {
    match fr
    case Bottom => (mem, Done)
    case Frame(p, l, m, i, caller) =>
      if i >= Entries(m, l) then (mem, if caller.Bottom? then Done else Fill(caller.(i := caller.i + 1)))
      else if l == 0 || l < f.leafLevels || !m.attr.Present() then
        (Store(mem, p, Index(l, m.vaddr) + i, LeafFor(f, m, l, i)), Fill(fr.(i := i + 1)))
      else
        var e := Read(f, mem, p, Index(l, m.vaddr) + i);
        (mem, if e.attr.Present() then Fill(Called(fr, e.frame)) else Link(fr, e))
  }

  function LookupStep(f: Format, mem: Memory, r: Reader): Reader {
    match r
    case Looking(v, p, l) =>
      var e := Read(f, mem, p, Index(l, v));
      if f.IsLeaf(l, e) then Found(v, LeafMapping(l, e, v)) else Looking(v, e.frame, l - 1)
    case Found(_, _) => r
  }

  ghost predicate Enabled(c: Setup, s: State, move: Move) {
    match move
    case Update(u, page) => u < |s.updates| == |c.asked| && (page.Some? ==> page.value !in s.mem)
    case Lookup(r) => r < |s.lookups|
  }

  function Next(c: Setup, s: State, move: Move): State
    requires Enabled(c, s, move)
  {
    match move
    case Update(u, page) =>
      var (mem, pc) := UpdateStep(c.f, s.mem, c.asked[u], s.updates[u], page);
      s.(mem := mem, updates := s.updates[u := pc])
    case Lookup(r) => s.(lookups := s.lookups[r := LookupStep(c.f, s.mem, s.lookups[r])])
  }

  ghost predicate Asks(f: Format, m: Mapping) {
    Aligned(m) && m.order < f.MaxOrder() && m.vaddr < f.Limit()
  }

  /** A page table, and calls that are all about to begin. */
  ghost predicate Init(c: Setup, s: State, places: Places) {
    && Shape(c.f, c.start, c.root, places) && s.mem == c.start && |s.updates| == |c.asked|
    && (forall u | 0 <= u < |c.asked| ::
          Asks(c.f, c.asked[u]) && s.updates[u] == Enter(c.asked[u], c.root, c.f.levels - 1))
    && (forall r | 0 <= r < |s.lookups| ::
          s.lookups[r].Looking? && s.lookups[r] == Looking(s.lookups[r].v, c.root, c.f.levels - 1)
          && s.lookups[r].v < c.f.Limit())
  }

  // -------------------------------------------------------------- invariant

  /** `t` is what some update asks for at `v`. */
  ghost predicate AskedFor(c: Setup, v: nat, t: Translation) {
    exists u :: 0 <= u < |c.asked| && InWindow(c.asked[u], v) && t == Meaning(c.asked[u], v)
  }

  /** `v` translates as some update asks. */
  ghost predicate Claimed(c: Setup, mem: Memory, v: nat)
    requires c.f.Valid()
  {
    AskedFor(c, v, Translate(c.f, mem, c.root, v))
  }

  ghost predicate Fair(c: Setup, v: nat, t: Translation)
    requires c.f.Valid()
  {
    t == Translate(c.f, c.start, c.root, v) || AskedFor(c, v, t)
  }

  /** A leaf of level `l` for block `b` means what was there at the start or what is asked for. */
  ghost predicate FairLeaf(c: Setup, l: nat, b: nat, e: Entry)
    requires c.f.Valid()
  {
    forall v: nat | v < c.f.Limit() && Block(l, v) == b :: Fair(c, v, Meaning(LeafMapping(l, e, v), v))
  }

  /** A table, still in the tree or cut off. */
  ghost predicate FairTable(c: Setup, mem: Memory, all: Places, p: Page)
    requires p in all && c.f.Valid()
  {
    && TableOk(c.f, mem, all, p)
    && forall i {:trigger mem[p][i]} | 0 <= i < 512 && c.f.IsLeaf(all[p].level, mem[p][i]) ::
         FairLeaf(c, all[p].level, all[p].block * 512 + i, mem[p][i])
  }

  /** The addresses of a table that was cut off are claimed. */
  ghost predicate CutOff(c: Setup, mem: Memory, pl: Place)
    requires c.f.Valid()
  {
    forall v: nat | v < c.f.Limit() && Covers(pl, v) :: Claimed(c, mem, v)
  }

  /** `places` are the tables of the tree, `all` also those that were cut off. */
  ghost predicate MemInv(c: Setup, mem: Memory, places: Places, all: Places) {
    && c.f.Valid() && Shape(c.f, mem, c.root, places)
    && (forall p | p in places :: p in all && all[p] == places[p])
    && (forall p {:trigger FairTable(c, mem, all, p)} | p in all :: FairTable(c, mem, all, p))
    && (forall p {:trigger all[p]} | p in all && p !in places :: CutOff(c, mem, all[p]))
    && (forall v: nat | v < c.f.Limit() :: Fair(c, v, Translate(c.f, mem, c.root, v)))
  }

  /** `p` is or was a table of level `l` for block `b`. */
  predicate Stands(all: Places, p: Page, l: nat, b: nat) {
    p in all && all[p].level == l && all[p].block == b
  }

  ghost predicate FramesOk(f: Format, all: Places, req: Mapping, fr: Frames) {
    && fr.Frame? && FitsLevel(fr.m, fr.level) && fr.i <= Count(fr.m, fr.level)
    && Stands(all, fr.table, fr.level, Block(fr.level + 1, fr.m.vaddr))
    && match fr.caller
       case Bottom => fr.m == req
       case Frame(_, l, m, i, _) =>
         && FramesOk(f, all, req, fr.caller) && l == fr.level + 1 && i < Count(m, l) && fr.m == SubMapping(m, l, i)
         && l >= f.leafLevels && m.attr.Present()
  }

  /** The address whose entry is next. */
  function Cursor(fr: Frames): nat
    requires fr.Frame?
  {
    fr.m.vaddr + Scale(fr.i, fr.level)
  }

  /** The addresses of the window before `end` are claimed. */
  ghost predicate Passed(c: Setup, mem: Memory, req: Mapping, end: nat)
    requires c.f.Valid()
  {
    forall v: nat | v < c.f.Limit() && InWindow(req, v) && v < end :: Claimed(c, mem, v)
  }

  ghost predicate UpdateOk(c: Setup, mem: Memory, all: Places, req: Mapping, pc: Updater)
    requires c.f.Valid()
  {
    match pc
    case Down(p, under) => Target(req) <= under && Stands(all, p, under + 1, Block(under + 2, req.vaddr))
    case Split(p, under, seen) =>
      Target(req) <= under && Stands(all, p, under + 1, Block(under + 2, req.vaddr)) && c.f.IsLeaf(under + 1, seen)
    case Fill(fr) => FramesOk(c.f, all, req, fr) && Passed(c, mem, req, Cursor(fr))
    case Link(fr, seen) =>
      && FramesOk(c.f, all, req, fr) && Passed(c, mem, req, Cursor(fr)) && !seen.attr.Present()
      && fr.i < Count(fr.m, fr.level) && c.f.leafLevels <= fr.level && fr.m.attr.Present()
    case Done => Passed(c, mem, req, req.vaddr + Pow2(req.order))
    case Failed => true
  }

  ghost predicate LookupOk(c: Setup, all: Places, r: Reader)
    requires c.f.Valid()
  {
    match r
    case Looking(v, p, l) => v < c.f.Limit() && Stands(all, p, l, Block(l + 1, v))
    case Found(v, m) => v < c.f.Limit() && Fair(c, v, Meaning(m, v))
  }

  ghost predicate Inv(c: Setup, s: State, places: Places, all: Places) {
    && MemInv(c, s.mem, places, all) && |s.updates| == |c.asked|
    && (forall u | 0 <= u < |c.asked| ::
          Asks(c.f, c.asked[u]) && UpdateOk(c, s.mem, all, c.asked[u], s.updates[u]))
    && (forall r | 0 <= r < |s.lookups| :: LookupOk(c, all, s.lookups[r]))
  }

  // ----------------------------------------------------- what a write leaves

  /** Tables stay where they are, and claims stay claims. */
  ghost predicate Later(c: Setup, mem: Memory, mem': Memory, all: Places, all': Places)
    requires c.f.Valid()
  {
    && (forall p | p in all :: p in all' && all'[p] == all[p])
    && (forall v: nat | v < c.f.Limit() && Claimed(c, mem, v) :: Claimed(c, mem', v))
  }

  lemma {:induction false} FramesKept(f: Format, all: Places, all': Places, req: Mapping, fr: Frames)
    requires FramesOk(f, all, req, fr) && forall p | p in all :: p in all' && all'[p] == all[p]
    ensures FramesOk(f, all', req, fr)
  {
    if fr.caller.Frame? { FramesKept(f, all, all', req, fr.caller); }
  }

  lemma UpdateKept(c: Setup, mem: Memory, mem': Memory, all: Places, all': Places, req: Mapping, pc: Updater)
    requires c.f.Valid() && Later(c, mem, mem', all, all') && UpdateOk(c, mem, all, req, pc)
    ensures UpdateOk(c, mem', all', req, pc)
  {
    hide Claimed, Block, FitsLevel;
    if pc.Fill? || pc.Link? { FramesKept(c.f, all, all', req, pc.frames); }
  }

  /** Memory that differs outside the tree only: the tree and all claims are as they were. */
  lemma SameTree(c: Setup, mem: Memory, mem': Memory, places: Places)
    requires Shape(c.f, mem, c.root, places) && Agree(mem, mem', places)
    ensures Shape(c.f, mem', c.root, places) && Untouched(c.f, c.root, mem, mem')
  {
    hide Shape, Claimed;
    ShapeSame(c.f, mem, mem', c.root, places);
    LookupSame(c.f, mem, mem', c.root, places);
  }

  /** Where translations stay, the rest of the invariant is about tables. */
  lemma UntouchedInv(c: Setup, mem: Memory, mem': Memory, places: Places, places': Places, all: Places, all': Places)
    requires MemInv(c, mem, places, all) && Shape(c.f, mem', c.root, places') && Untouched(c.f, c.root, mem, mem')
    requires forall p | p in all :: p in all' && all'[p] == all[p]
    requires forall p | p in places' :: p in all' && all'[p] == places'[p]
    requires forall p | p in all' :: FairTable(c, mem', all', p)
    requires forall p | p in all' && p !in places' :: CutOff(c, mem, all'[p])
    ensures MemInv(c, mem', places', all') && Later(c, mem, mem', all, all')
  {
    hide Shape, FairTable, Translate, AskedFor;
  }

  // ------------------------------------------------------- a table is hung in

  function HungPlace(all: Places, p: Page, i: nat): Place
    requires p in all && all[p].level > 0
  {
    Place(all[p].level - 1, all[p].block * 512 + i, p)
  }

  /** The entries of a new table mean what the leaf meant. */
  lemma NewEntry(c: Setup, l: nat, b: nat, e: Entry, j: nat)
    requires c.f.Valid() && l > 0 && LeafOk(c.f, l, e) && FairLeaf(c, l, b, e) && j < 512
    ensures LeafOk(c.f, l - 1, NewTable(c.f, e, l)[j])
    ensures FairLeaf(c, l - 1, b * 512 + j, NewTable(c.f, e, l)[j])
  {
    hide Fair;
    var t, k := NewTable(c.f, e, l)[j], l - 1;
    if c.f.IsSuperpage(l, e) { SplitOk(c.f, e, l, j); }
    forall v: nat | v < c.f.Limit() && Block(k, v) == b * 512 + j
      ensures Fair(c, v, Meaning(LeafMapping(k, t, v), v))
    {
      assert Block(l, v) == b && Index(l - 1, v) == j;
      if c.f.IsSuperpage(l, e) { SplitMeaning(c.f, e, l, v); }
      assert Meaning(LeafMapping(l - 1, t, v), v) == Meaning(LeafMapping(l, e, v), v);
    }
  }

  lemma EntryKept(f: Format, all: Places, all': Places, p: Page, i: nat, e: Entry)
    requires p in all && EntryOk(f, all, p, i, e) && forall q | q in all :: q in all' && all'[q] == all[q]
    ensures EntryOk(f, all', p, i, e)
  {
  }

  /** A table other than the new one; `x` is what stands in its entry `i`, if it is `p`. */
  lemma OldTable(c: Setup, mem: Memory, mem': Memory, all: Places, all': Places, p: Page, i: nat, x: Entry, q: Page)
    requires c.f.Valid() && p in all && q in all && FairTable(c, mem, all, q) && i < 512
    requires forall r | r in all :: r in all' && all'[r] == all[r]
    requires q in mem' && q in mem && |mem[q]| == 512 && mem'[q] == if q == p then mem[q][i := x] else mem[q]
    requires q == p ==> EntryOk(c.f, all', p, i, x)
    requires q == p && c.f.IsLeaf(all[p].level, x) ==> FairLeaf(c, all[p].level, all[p].block * 512 + i, x)
    ensures FairTable(c, mem', all', q)
  {
    hide FairLeaf, EntryOk;
    forall j | 0 <= j < 512
      ensures EntryOk(c.f, all', q, j, mem'[q][j])
      ensures c.f.IsLeaf(all[q].level, mem'[q][j]) ==>
                FairLeaf(c, all[q].level, all[q].block * 512 + j, mem'[q][j])
    {
      assert EntryOk(c.f, all, q, j, mem[q][j]);
      EntryKept(c.f, all, all', q, j, mem[q][j]);
    }
  }

  /** Every table is in order after one was hung in, wherever that was. */
  lemma HungTables(c: Setup, mem: Memory, places: Places, all: Places, p: Page, i: nat, e: Entry, n: Page, q: Page)
    requires MemInv(c, mem, places, all) && p in all && i < 512 && all[p].level > 0 && n !in mem
    requires e == Read(c.f, mem, p, i) && c.f.IsLeaf(all[p].level, e) && (q in all || q == n)
    ensures FairTable(c, Hang(c.f, mem, p, i, all[p].level, e, n), all[n := HungPlace(all, p, i)], q)
  {
    hide Shape, CutOff, FairLeaf, LeafOk, Fair;
    var l, all' := all[p].level, all[n := HungPlace(all, p, i)];
    assert FairTable(c, mem, all, p);
    var mem' := Hang(c.f, mem, p, i, l, e, n);
    forall r | r in all ensures r in mem && r != n { assert FairTable(c, mem, all, r); }
    assert EntryOk(c.f, all, p, i, e);
    if q == n {
      forall j | 0 <= j < 512
        ensures LeafOk(c.f, l - 1, mem'[n][j]) && FairLeaf(c, l - 1, (all[p].block * 512 + i) * 512 + j, mem'[n][j])
      {
        NewEntry(c, l, all[p].block * 512 + i, e, j);
      }
      NewFair(c, mem', all', n);
    } else {
      assert FairTable(c, mem, all, q);
      OldTable(c, mem, mem', all, all', p, i, Entry(n, c.f.allRights, false), q);
    }
  }

  lemma NewFair(c: Setup, mem: Memory, all: Places, n: Page)
    requires c.f.Valid() && n in all && all[n].level < c.f.levels && n in mem && |mem[n]| == 512
    requires forall j | 0 <= j < 512 :: LeafOk(c.f, all[n].level, mem[n][j])
    requires forall j | 0 <= j < 512 :: FairLeaf(c, all[n].level, all[n].block * 512 + j, mem[n][j])
    ensures FairTable(c, mem, all, n)
  {
    hide FairLeaf;
    forall j | 0 <= j < 512 ensures EntryOk(c.f, all, n, j, mem[n][j]) { assert LeafOk(c.f, all[n].level, mem[n][j]); }
  }

  /** Hanging in a table of the tree leaves all translations alone. */
  lemma HungLive(c: Setup, mem: Memory, places: Places, p: Page, i: nat, e: Entry, n: Page)
    requires Shape(c.f, mem, c.root, places) && p in places && i < 512 && places[p].level > 0
    requires n !in mem && n !in places && e == Read(c.f, mem, p, i) && c.f.IsLeaf(places[p].level, e)
    ensures var mem' := Hang(c.f, mem, p, i, places[p].level, e, n);
            && Shape(c.f, mem', c.root, places[n := HungPlace(places, p, i)])
            && Untouched(c.f, c.root, mem, mem')
  {
    var l, t, x := places[p].level, NewTable(c.f, e, places[p].level), Entry(n, c.f.allRights, false);
    var mid := mem[n := t];
    LevelBound(c.f, mem, c.root, places, p);
    TreeInMemory(c.f, mem, c.root, places);
    SameTree(c, mem, mid, places);
    assert TableOk(c.f, mem, places, p);
    assert EntryOk(c.f, places, p, i, mem[p][i]);
    hide Shape, Block;
    forall j | 0 <= j < 512 ensures LeafOk(c.f, l - 1, t[j]) {
      if c.f.IsSuperpage(l, e) { SplitOk(c.f, e, l, j); }
    }
    HangShape(c.f, mid, c.root, places, p, i, n, x);
    forall v: nat | v < c.f.Limit()
      ensures PageTableModel.Lookup(c.f, WriteAt(mid, p, i, x), c.root, v) ==
              (if Block(l, v) == places[p].block * 512 + i then LeafMapping(l - 1, t[Index(l - 1, v)], v)
               else PageTableModel.Lookup(c.f, mid, c.root, v))
    {
      HangLookup(c.f, mid, c.root, places, p, i, n, x, v);
    }
    HungMeaning(c.f, mid, WriteAt(mid, p, i, x), c.root, places, p, i, t);
  }

  /** A successful compare-and-swap, in the tree or in a part that was cut off meanwhile. */
  lemma HangInv(c: Setup, mem: Memory, places: Places, all: Places, p: Page, i: nat, e: Entry, n: Page)
    returns (places': Places)
    requires MemInv(c, mem, places, all) && p in all && i < 512 && all[p].level > 0 && n !in mem
    requires e == Read(c.f, mem, p, i) && c.f.IsLeaf(all[p].level, e)
    ensures var mem', all' := Hang(c.f, mem, p, i, all[p].level, e, n), all[n := HungPlace(all, p, i)];
            MemInv(c, mem', places', all') && Later(c, mem, mem', all, all')
    ensures n !in all
  {
    hide Shape, CutOff, FairLeaf, LeafOk, Fair, Untouched;
    var mem', all' := Hang(c.f, mem, p, i, all[p].level, e, n), all[n := HungPlace(all, p, i)];
    assert FairTable(c, mem, all, p);
    forall r | r in all ensures r in mem && r != n { assert FairTable(c, mem, all, r); }
    forall q | q in all' ensures FairTable(c, mem', all', q) { HungTables(c, mem, places, all, p, i, e, n, q); }
    if p in places {
      HungLive(c, mem, places, p, i, e, n);
      places' := places[n := HungPlace(all, p, i)];
    } else {
      SameTree(c, mem, mem', places);
      CutBelow(c, mem, all[p], HungPlace(all, p, i), i);
      places' := places;
    }
    UntouchedInv(c, mem, mem', places, places', all, all');
  }

  lemma CutBelow(c: Setup, mem: Memory, pl: Place, child: Place, i: nat)
    requires c.f.Valid() && CutOff(c, mem, pl) && pl.level > 0 && i < 512
    requires child.level == pl.level - 1 && child.block == pl.block * 512 + i
    ensures CutOff(c, mem, child)
  {
    hide Claimed;
    forall v: nat | v < c.f.Limit() && Covers(child, v) ensures Claimed(c, mem, v) { assert Covers(pl, v); }
  }

  // --------------------------------------------------------- a leaf is written

  /** Leaf `e` of level `l` means, all over block `b`, what update `u` asks for. */
  ghost predicate LeafFrom(c: Setup, u: nat, l: nat, b: nat, e: Entry) {
    && u < |c.asked|
    && forall v: nat | v < c.f.Limit() && Block(l, v) == b ::
         InWindow(c.asked[u], v) && Meaning(LeafMapping(l, e, v), v) == Meaning(c.asked[u], v)
  }

  ghost predicate BlockClaimed(c: Setup, mem: Memory, l: nat, b: nat)
    requires c.f.Valid()
  {
    forall v: nat | v < c.f.Limit() && Block(l, v) == b :: Claimed(c, mem, v)
  }

  /** An exchange in the tree: the block is claimed, the rest is as it was. */
  lemma WriteLive(c: Setup, mem: Memory, places: Places, p: Page, i: nat, e: Entry, u: nat)
    requires Shape(c.f, mem, c.root, places) && p in places && i < 512 && LeafOk(c.f, places[p].level, e)
    requires LeafFrom(c, u, places[p].level, places[p].block * 512 + i, e)
    ensures var mem', l, b := Store(mem, p, i, e), places[p].level, places[p].block * 512 + i;
            && Shape(c.f, mem', c.root, places - Below(places, l, b)) && BlockClaimed(c, mem', l, b)
            && forall v: nat | v < c.f.Limit() && Block(l, v) != b ::
                 Translate(c.f, mem', c.root, v) == Translate(c.f, mem, c.root, v)
  {
    var mem', l, b := Store(mem, p, i, e), places[p].level, places[p].block * 512 + i;
    LevelBound(c.f, mem, c.root, places, p);
    assert EntryOk(c.f, places, p, i, e);
    hide Shape, Block;
    CutShape(c.f, mem, c.root, places, p, i, e);
    forall v: nat | v < c.f.Limit()
      ensures if Block(l, v) == b then Claimed(c, mem', v)
              else Translate(c.f, mem', c.root, v) == Translate(c.f, mem, c.root, v)
    {
      CutLookup(c.f, mem, c.root, places, p, i, e, v);
    }
  }

  /** Tables below a block translate addresses of that block only. */
  lemma BelowCovers(pl: Place, l: nat, b: nat, v: nat)
    requires Under(pl, l, b) && Covers(pl, v)
    ensures Block(l, v) == b
  {
    BlockUp(pl.level + 1, l - 1 - pl.level, v);
  }

  /** An exchange, in the tree or in a part that was cut off meanwhile. */
  lemma WriteInv(c: Setup, mem: Memory, places: Places, all: Places, p: Page, i: nat, e: Entry, u: nat)
    returns (places': Places)
    requires MemInv(c, mem, places, all) && p in all && i < 512 && LeafOk(c.f, all[p].level, e)
    requires LeafFrom(c, u, all[p].level, all[p].block * 512 + i, e)
    ensures MemInv(c, Store(mem, p, i, e), places', all) && Later(c, mem, Store(mem, p, i, e), all, all)
    ensures BlockClaimed(c, Store(mem, p, i, e), all[p].level, all[p].block * 512 + i)
  {
    hide Shape, LeafOk, Untouched, Block, Translate;
    var mem', l, b := Store(mem, p, i, e), all[p].level, all[p].block * 512 + i;
    WrittenTables(c, mem, places, all, p, i, e, u);
    if p in places {
      WriteLive(c, mem, places, p, i, e, u);
      places' := places - Below(places, l, b);
      forall q | q in all && q !in places' ensures CutOff(c, mem', all[q]) {
        forall v: nat | v < c.f.Limit() && Covers(all[q], v) ensures Claimed(c, mem', v) {
          if q in places { BelowCovers(places[q], l, b, v); }
        }
      }
    } else {
      assert FairTable(c, mem, all, p);
      TreeInMemory(c.f, mem, c.root, places);
      SameTree(c, mem, mem', places);
      places' := places;
      UntouchedInv(c, mem, mem', places, places, all, all);
      forall v: nat | v < c.f.Limit() && Block(l, v) == b ensures Claimed(c, mem', v) { InTable(all[p], i, v); }
    }
  }

  lemma InTable(pl: Place, i: nat, v: nat)
    requires i < 512 && Block(pl.level, v) == pl.block * 512 + i
    ensures Covers(pl, v)
  {
  }

  lemma WrittenTables(c: Setup, mem: Memory, places: Places, all: Places, p: Page, i: nat, e: Entry, u: nat)
    requires MemInv(c, mem, places, all) && p in all && i < 512 && LeafOk(c.f, all[p].level, e)
    requires LeafFrom(c, u, all[p].level, all[p].block * 512 + i, e)
    ensures forall q | q in all :: FairTable(c, Store(mem, p, i, e), all, q)
  {
    hide Shape, CutOff, Translate, Block;
    var mem' := Store(mem, p, i, e);
    assert FairTable(c, mem, all, p);
    assert EntryOk(c.f, all, p, i, e);
    assert FairLeaf(c, all[p].level, all[p].block * 512 + i, e);
    forall q | q in all ensures FairTable(c, mem', all, q) {
      assert FairTable(c, mem, all, q);
      OldTable(c, mem, mem', all, all, p, i, e, q);
    }
  }

  // -------------------------------------------------------- steps of an update

  /** The mapping of a frame asks, in its window, for what the update asks. */
  lemma {:induction false} FrameMeaning(f: Format, all: Places, req: Mapping, fr: Frames, v: nat)
    requires FramesOk(f, all, req, fr) && InWindow(fr.m, v)
    ensures InWindow(req, v) && Meaning(fr.m, v) == Meaning(req, v)
  {
    hide Block, Pow2, Scale, FitsLevel;
    match fr.caller
    case Bottom =>
    case Frame(_, l, m, i, _) =>
      SubWindow(m, l, i, v);
      FrameMeaning(f, all, req, fr.caller, v);
  }

  lemma SubWindow(m: Mapping, l: nat, i: nat, v: nat)
    requires FitsLevel(m, l) && l > 0 && i < Count(m, l) && InWindow(SubMapping(m, l, i), v)
    ensures InWindow(m, v) && Meaning(SubMapping(m, l, i), v) == Meaning(m, v)
  {
    hide Block, Pow2, Scale, FitsLevel, Count;
    SubFits(m, l, i);
    CountBound(m, l);
    WindowBlocks(SubMapping(m, l, i), l - 1, v);
    ChildBlock(l, v, Block(l, m.vaddr) + i);
    WindowBlocks(m, l, v);
    SubTarget(m, l, i, v);
  }

  lemma ChildBlock(l: nat, v: nat, b: nat)
    requires l > 0 && b * 512 <= Block(l - 1, v) < b * 512 + 512
    ensures Block(l, v) == b
  {
  }

  /** The next entry of a frame stands for the block at the cursor. */
  lemma AtCursor(fr: Frames, v: nat)
    requires fr.Frame? && FitsLevel(fr.m, fr.level)
    ensures Block(fr.level, v) == Block(fr.level, fr.m.vaddr) + fr.i <==>
            Cursor(fr) <= v < Cursor(fr) + Span(fr.level)
    ensures Cursor(fr.(i := fr.i + 1)) == Cursor(fr) + Span(fr.level)
  {
    hide Block, Pow2, FitsLevel, Scale;
    var l, b := fr.level, Block(fr.level, fr.m.vaddr);
    CountBound(fr.m, l);
    ScaleSum(b, fr.i, l);
    ScaleSum(b + fr.i, 1, l);
    ScaleOne(fr.i, l);
    BlockRange(l, v, b + fr.i, 1);
  }

  lemma ScaleOne(i: nat, l: nat)
    ensures Scale(1, l) == Span(l) && Scale(i + 1, l) == Scale(i, l) + Span(l)
  {
    assert Scale(0, l) == 0;
  }

  lemma EntriesIsCount(m: Mapping, l: nat)
    requires FitsLevel(m, l)
    ensures Entries(m, l) == Count(m, l)
  {
  }

  lemma LeafFromFrame(c: Setup, all: Places, u: nat, fr: Frames)
    requires c.f.Valid() && u < |c.asked| && FramesOk(c.f, all, c.asked[u], fr) && fr.i < Count(fr.m, fr.level)
    requires fr.m.attr.Present() ==> fr.level < c.f.leafLevels
    ensures LeafFrom(c, u, fr.level, Block(fr.level, fr.m.vaddr) + fr.i, LeafFor(c.f, fr.m, fr.level, fr.i))
  {
    hide Block, Pow2, Scale, FramesOk, InWindow;
    FrameFits(c.f, all, c.asked[u], fr);
    var l, m, e := fr.level, fr.m, LeafFor(c.f, fr.m, fr.level, fr.i);
    CountBound(m, l);
    forall v: nat | v < c.f.Limit() && Block(l, v) == Block(l, m.vaddr) + fr.i
      ensures InWindow(c.asked[u], v) && Meaning(LeafMapping(l, e, v), v) == Meaning(c.asked[u], v)
    {
      WindowBlocks(m, l, v);
      FrameMeaning(c.f, all, c.asked[u], fr, v);
      if m.attr.Present() { TargetMeaning(m, l, fr.i, e, v); }
    }
  }

  lemma FrameFits(f: Format, all: Places, req: Mapping, fr: Frames)
    requires FramesOk(f, all, req, fr)
    ensures fr.Frame? && FitsLevel(fr.m, fr.level) && fr.i <= Count(fr.m, fr.level)
    ensures Stands(all, fr.table, fr.level, Block(fr.level + 1, fr.m.vaddr))
  {
  }

  lemma CallerFits(f: Format, all: Places, req: Mapping, fr: Frames)
    requires FramesOk(f, all, req, fr)
    ensures match fr.caller
            case Bottom => fr.m == req
            case Frame(_, l, m, i, _) =>
              && FramesOk(f, all, req, fr.caller) && FitsLevel(m, l) && l == fr.level + 1 && i < Count(m, l)
              && fr.m == SubMapping(m, l, i)
  {
  }

  lemma FrameOn(f: Format, all: Places, req: Mapping, fr: Frames)
    requires FramesOk(f, all, req, fr) && fr.i < Count(fr.m, fr.level)
    ensures FramesOk(f, all, req, fr.(i := fr.i + 1))
  {
    hide Block, Pow2;
  }

  /** What a step of update `u` leaves behind. */
  ghost predicate Moved(c: Setup, mem: Memory, all: Places, mem': Memory, places': Places, all': Places, req: Mapping,
                        pc': Updater) {
    MemInv(c, mem', places', all') && Later(c, mem, mem', all, all') && UpdateOk(c, mem', all', req, pc')
  }

  /** A leaf is exchanged. */
  lemma StepLeaf(c: Setup, mem: Memory, places: Places, all: Places, u: nat, fr: Frames) returns (places': Places)
    requires MemInv(c, mem, places, all) && u < |c.asked| && UpdateOk(c, mem, all, c.asked[u], Fill(fr))
    requires fr.i < Count(fr.m, fr.level)
    requires fr.m.attr.Present() ==> fr.level < c.f.leafLevels
    ensures var mem' := Store(mem, fr.table, Index(fr.level, fr.m.vaddr) + fr.i,
                              LeafFor(c.f, fr.m, fr.level, fr.i));
            Moved(c, mem, all, mem', places', all, c.asked[u], Fill(fr.(i := fr.i + 1)))
  {
    hide MemInv, Block, Pow2, Scale, FramesOk, LeafFrom, LeafOk, FitsLevel, Count, Claimed, InWindow;
    ValidFormat(c, mem, places, all);
    FrameFits(c.f, all, c.asked[u], fr);
    var l, m, req := fr.level, fr.m, c.asked[u];
    var i, e := Index(l, m.vaddr) + fr.i, LeafFor(c.f, m, l, fr.i);
    RunIndex(m, l, fr.i);
    LeafForOk(c.f, m, l, fr.i);
    LeafFromFrame(c, all, u, fr);
    places' := WriteInv(c, mem, places, all, fr.table, i, e, u);
    var mem' := Store(mem, fr.table, i, e);
    FrameOn(c.f, all, req, fr);
    forall v: nat | v < c.f.Limit() && InWindow(req, v) && v < Cursor(fr.(i := fr.i + 1)) ensures Claimed(c, mem', v) {
      AtCursor(fr, v);
    }
  }

  lemma ValidFormat(c: Setup, mem: Memory, places: Places, all: Places)
    requires MemInv(c, mem, places, all)
    ensures c.f.Valid()
  {
  }

  /** The rest of the frames takes over when one is finished. */
  lemma StepReturn(c: Setup, mem: Memory, all: Places, req: Mapping, fr: Frames)
    requires c.f.Valid() && UpdateOk(c, mem, all, req, Fill(fr)) && fr.Frame? && fr.i == Count(fr.m, fr.level)
    ensures UpdateOk(c, mem, all, req, if fr.caller.Bottom? then Done else Fill(fr.caller.(i := fr.caller.i + 1)))
  {
    hide Block, Pow2, Claimed, FitsLevel, Count, FramesOk, Scale, InWindow;
    FrameFits(c.f, all, req, fr);
    CountBound(fr.m, fr.level);
    CallerFits(c.f, all, req, fr);
    if fr.caller.Frame? {
      var Frame(_, l, m, i, _) := fr.caller;
      SubFits(m, l, i);
      ScaleUp(1, fr.level);
      ScaleOne(i, l);
      FrameOn(c.f, all, req, fr.caller);
    }
  }

  /** Below an entry that points to a table. */
  lemma StepCall(c: Setup, mem: Memory, all: Places, req: Mapping, fr: Frames, p: Page)
    requires c.f.Valid() && UpdateOk(c, mem, all, req, Fill(fr)) && fr.Frame? && fr.i < Count(fr.m, fr.level)
    requires c.f.leafLevels <= fr.level && fr.m.attr.Present()
    requires Stands(all, p, fr.level - 1, all[fr.table].block * 512 + (Index(fr.level, fr.m.vaddr) + fr.i))
    ensures UpdateOk(c, mem, all, req, Fill(Called(fr, p)))
  {
    hide Block, Pow2, Claimed, FitsLevel, Count;
    RunIndex(fr.m, fr.level, fr.i);
    SubFits(fr.m, fr.level, fr.i);
    assert Scale(0, fr.level - 1) == 0;
  }

  /** An entry that is not a leaf points to a table, in the tree or not. */
  lemma PointsTo(c: Setup, mem: Memory, places: Places, all: Places, p: Page, i: nat)
    requires MemInv(c, mem, places, all) && p in all && i < 512
    requires !c.f.IsLeaf(all[p].level, Read(c.f, mem, p, i))
    ensures Stands(all, Read(c.f, mem, p, i).frame, all[p].level - 1, all[p].block * 512 + i)
  {
    hide Shape, CutOff, FairLeaf, Fair;
    assert FairTable(c, mem, all, p);
    assert EntryOk(c.f, all, p, i, mem[p][i]);
  }

  /** A table is hung in for `fill_entries`. */
  lemma StepLink(c: Setup, mem: Memory, places: Places, all: Places, req: Mapping, fr: Frames, seen: Entry, n: Page)
    returns (places': Places, all': Places)
    requires MemInv(c, mem, places, all) && UpdateOk(c, mem, all, req, Link(fr, seen)) && n !in mem
    requires Read(c.f, mem, fr.table, Index(fr.level, fr.m.vaddr) + fr.i) == seen
    ensures Moved(c, mem, all, Hang(c.f, mem, fr.table, Index(fr.level, fr.m.vaddr) + fr.i, fr.level, seen, n), places',
                  all', req, Fill(Called(fr, n)))
  {
    hide MemInv, Block, Pow2, Claimed, FitsLevel, Count, FramesOk, Hang;
    ValidFormat(c, mem, places, all);
    FrameFits(c.f, all, req, fr);
    var i := Index(fr.level, fr.m.vaddr) + fr.i;
    RunIndex(fr.m, fr.level, fr.i);
    places' := HangInv(c, mem, places, all, fr.table, i, seen, n);
    all' := all[n := HungPlace(all, fr.table, i)];
    var mem' := Hang(c.f, mem, fr.table, i, fr.level, seen, n);
    UpdateKept(c, mem, mem', all, all', req, Fill(fr));
    StepCall(c, mem', all', req, fr, n);
  }

  // ----------------------------------------------------------- on the way down

  /** Arriving at the next table. */
  lemma EnterOk(c: Setup, mem: Memory, all: Places, req: Mapping, p: Page, l: nat)
    requires c.f.Valid() && Asks(c.f, req) && Target(req) <= l && Stands(all, p, l, Block(l + 1, req.vaddr))
    ensures UpdateOk(c, mem, all, req, Enter(req, p, l))
  {
    hide Block, Claimed;
    if l == Target(req) {
      assert Scale(0, l) == 0;
    }
  }

  /** Where nothing is mapped, unmapping is done. */
  lemma MissingDone(c: Setup, mem: Memory, places: Places, all: Places, u: nat, p: Page, under: nat)
    requires MemInv(c, mem, places, all) && u < |c.asked| && Asks(c.f, c.asked[u])
    requires UpdateOk(c, mem, all, c.asked[u], Down(p, under)) && !c.asked[u].attr.Present()
    requires !Read(c.f, mem, p, Index(under + 1, c.asked[u].vaddr)).attr.Present()
    ensures UpdateOk(c, mem, all, c.asked[u], Done)
  {
    hide Shape, Block, FairTable, Pow2, Read, Translate, Fair;
    var req := c.asked[u];
    var to := Target(req);
    forall v: nat | v < c.f.Limit() && InWindow(req, v) ensures Claimed(c, mem, v) {
      WindowParent(req, to, v);
      SameBlockUp(to + 1, under + 2, v, req.vaddr);
      if p in places {
        MissingAround(c.f, mem, c.root, places, p, to, req.vaddr);
        assert AskedFor(c, v, Unmapped);
      } else {
        assert CutOff(c, mem, all[p]);
      }
    }
  }

  lemma StepDown(c: Setup, mem: Memory, places: Places, all: Places, u: nat, p: Page, under: nat)
    requires MemInv(c, mem, places, all) && u < |c.asked| && Asks(c.f, c.asked[u])
    requires UpdateOk(c, mem, all, c.asked[u], Down(p, under))
    ensures UpdateOk(c, mem, all, c.asked[u], UpdateStep(c.f, mem, c.asked[u], Down(p, under), None).1)
  {
    hide MemInv, Block, Claimed, Asks, Target, Enter;
    ValidFormat(c, mem, places, all);
    var req := c.asked[u];
    var i := Index(under + 1, req.vaddr);
    var e := Read(c.f, mem, p, i);
    if !e.attr.Present() && !req.attr.Present() {
      MissingDone(c, mem, places, all, u, p, under);
    } else if !c.f.IsLeaf(under + 1, e) {
      PointsTo(c, mem, places, all, p, i);
      IndexIn(under + 1, req.vaddr);
      EnterOk(c, mem, all, req, e.frame, under);
    }
  }

  lemma IndexIn(l: nat, v: nat)
    ensures Block(l + 1, v) * 512 + Index(l, v) == Block(l, v)
  {
  }

  lemma StepSplit(c: Setup, mem: Memory, places: Places, all: Places, u: nat, p: Page, under: nat, seen: Entry, n: Page)
    returns (places': Places, all': Places)
    requires MemInv(c, mem, places, all) && u < |c.asked| && Asks(c.f, c.asked[u]) && n !in mem
    requires UpdateOk(c, mem, all, c.asked[u], Split(p, under, seen))
    requires Read(c.f, mem, p, Index(under + 1, c.asked[u].vaddr)) == seen
    ensures Moved(c, mem, all, Hang(c.f, mem, p, Index(under + 1, c.asked[u].vaddr), under + 1, seen, n), places', all',
                  c.asked[u], Enter(c.asked[u], n, under))
  {
    hide MemInv, Block, Claimed, Asks, Target, Enter, Hang;
    ValidFormat(c, mem, places, all);
    var req := c.asked[u];
    var i := Index(under + 1, req.vaddr);
    places' := HangInv(c, mem, places, all, p, i, seen, n);
    all' := all[n := HungPlace(all, p, i)];
    IndexIn(under + 1, req.vaddr);
    EnterOk(c, Hang(c.f, mem, p, i, under + 1, seen, n), all', req, n, under);
  }

  lemma Unmoved(c: Setup, mem: Memory, places: Places, all: Places, req: Mapping, pc: Updater)
    requires MemInv(c, mem, places, all) && UpdateOk(c, mem, all, req, pc)
    ensures Moved(c, mem, all, mem, places, all, req, pc)
  {
  }

  lemma StepFill(c: Setup, mem: Memory, places: Places, all: Places, u: nat, fr: Frames) returns (places': Places)
    requires MemInv(c, mem, places, all) && u < |c.asked| && UpdateOk(c, mem, all, c.asked[u], Fill(fr))
    ensures Moved(c, mem, all, FillStep(c.f, mem, fr).0, places', all, c.asked[u], FillStep(c.f, mem, fr).1)
  {
    hide MemInv, Block, Claimed, Moved, FramesOk, Pow2, Count, Entries, Scale, Read, FitsLevel;
    ValidFormat(c, mem, places, all);
    FrameFits(c.f, all, c.asked[u], fr);
    var req, l, m := c.asked[u], fr.level, fr.m;
    EntriesIsCount(m, l);
    places' := places;
    if fr.i >= Entries(m, l) {
      StepReturn(c, mem, all, req, fr);
      Unmoved(c, mem, places, all, req, FillStep(c.f, mem, fr).1);
    } else if l == 0 || l < c.f.leafLevels || !m.attr.Present() {
      places' := StepLeaf(c, mem, places, all, u, fr);
    } else {
      var i := Index(l, m.vaddr) + fr.i;
      RunIndex(m, l, fr.i);
      if Read(c.f, mem, fr.table, i).attr.Present() {
        PointsTo(c, mem, places, all, fr.table, i);
        StepCall(c, mem, all, req, fr, Read(c.f, mem, fr.table, i).frame);
      }
      Unmoved(c, mem, places, all, req, FillStep(c.f, mem, fr).1);
    }
  }

  /** Every step of an update keeps the tables in order, all claims, and its own place. */
  lemma UpdateMoves(c: Setup, mem: Memory, places: Places, all: Places, u: nat, pc: Updater, page: Option<Page>)
    returns (places': Places, all': Places)
    requires MemInv(c, mem, places, all) && u < |c.asked| && Asks(c.f, c.asked[u])
    requires UpdateOk(c, mem, all, c.asked[u], pc) && (page.Some? ==> page.value !in mem)
    ensures var r := UpdateStep(c.f, mem, c.asked[u], pc, page);
            Moved(c, mem, all, r.0, places', all', c.asked[u], r.1)
  {
    hide MemInv, Block, Claimed, Asks, Target, Enter, Hang, Moved, FramesOk, FillStep, Count, Read, FitsLevel, Passed;
    ValidFormat(c, mem, places, all);
    var req, r := c.asked[u], UpdateStep(c.f, mem, c.asked[u], pc, page);
    places', all' := places, all;
    if pc.Split? && page.Some? && Read(c.f, mem, pc.table, Index(pc.under + 1, req.vaddr)) == pc.seen {
      places', all' := StepSplit(c, mem, places, all, u, pc.table, pc.under, pc.seen, page.value);
    } else if pc.Fill? {
      places' := StepFill(c, mem, places, all, u, pc.frames);
    } else if pc.Link? && page.Some? && LinkReads(c.f, mem, pc.frames) == pc.seen {
      LinkFrame(c, mem, all, req, pc.frames, pc.seen);
      places', all' := StepLink(c, mem, places, all, req, pc.frames, pc.seen, page.value);
    } else {
      if pc.Down? { StepDown(c, mem, places, all, u, pc.table, pc.under); }
      if pc.Link? { LinkFrame(c, mem, all, req, pc.frames, pc.seen); }
      Unmoved(c, mem, places, all, req, r.1);
    }
  }

  /** The entry that a frame is about to read. */
  function LinkReads(f: Format, mem: Memory, fr: Frames): Entry {
    if fr.Bottom? then f.Empty() else Read(f, mem, fr.table, Index(fr.level, fr.m.vaddr) + fr.i)
  }

  lemma LinkFrame(c: Setup, mem: Memory, all: Places, req: Mapping, fr: Frames, seen: Entry)
    requires c.f.Valid() && UpdateOk(c, mem, all, req, Link(fr, seen))
    ensures fr.Frame? && fr.level > 0
  {
  }

  // -------------------------------------------------------------- whole runs

  lemma LookupMoves(c: Setup, mem: Memory, places: Places, all: Places, r: Reader)
    requires MemInv(c, mem, places, all) && LookupOk(c, all, r)
    ensures LookupOk(c, all, LookupStep(c.f, mem, r))
  {
    hide Shape, CutOff, Fair, Block, Translate;
    if r.Looking? {
      var i := Index(r.level, r.v);
      IndexIn(r.level, r.v);
      assert FairTable(c, mem, all, r.table);
      if c.f.IsLeaf(r.level, mem[r.table][i]) {
        assert FairLeaf(c, r.level, Block(r.level, r.v), mem[r.table][i]);
      } else {
        PointsTo(c, mem, places, all, r.table, i);
      }
    }
  }

  lemma InitInv(c: Setup, s: State, places: Places)
    requires Init(c, s, places)
    ensures Inv(c, s, places, places)
  {
    hide Shape, Block, Enter;
    StartTables(c, places);
    forall u | 0 <= u < |c.asked| ensures UpdateOk(c, s.mem, places, c.asked[u], s.updates[u]) {
      UpdateLevel(c.f, c.start, c.root, places, c.asked[u]);
      EnterOk(c, s.mem, places, c.asked[u], c.root, c.f.levels - 1);
    }
    forall r | 0 <= r < |s.lookups| ensures LookupOk(c, places, s.lookups[r]) {
      RootBlock(c.f.levels, s.lookups[r].v);
    }
  }

  lemma StartTables(c: Setup, places: Places)
    requires Shape(c.f, c.start, c.root, places)
    ensures MemInv(c, c.start, places, places)
    ensures c.root in places && places[c.root].level == c.f.levels - 1 && places[c.root].block == 0
  {
    forall p | p in places ensures FairTable(c, c.start, places, p) {
      assert TableOk(c.f, c.start, places, p);
      forall i | 0 <= i < 512 && c.f.IsLeaf(places[p].level, c.start[p][i])
        ensures FairLeaf(c, places[p].level, places[p].block * 512 + i, c.start[p][i])
      {
        StartLeaf(c, places, p, i);
      }
    }
  }

  lemma StartLeaf(c: Setup, places: Places, p: Page, i: nat)
    requires Shape(c.f, c.start, c.root, places) && p in places && i < 512 && c.f.Valid()
    requires c.f.IsLeaf(places[p].level, Read(c.f, c.start, p, i))
    ensures FairLeaf(c, places[p].level, places[p].block * 512 + i, Read(c.f, c.start, p, i))
  {
    hide Shape, Block;
    forall v: nat | v < c.f.Limit() && Block(places[p].level, v) == places[p].block * 512 + i
      ensures Fair(c, v, Meaning(LeafMapping(places[p].level, Read(c.f, c.start, p, i), v), v))
    {
      LeafLookup(c.f, c.start, c.root, places, p, i, v);
    }
  }

  /** Every step of every call keeps the invariant. */
  lemma StepInv(c: Setup, s: State, places: Places, all: Places, move: Move) returns (places': Places, all': Places)
    requires Inv(c, s, places, all) && Enabled(c, s, move)
    ensures Inv(c, Next(c, s, move), places', all')
  {
    hide MemInv, Asks, UpdateOk, UpdateStep, LookupStep, LookupOk;
    ValidFormat(c, s.mem, places, all);
    var s' := Next(c, s, move);
    match move
    case Lookup(r) =>
      LookupMoves(c, s.mem, places, all, s.lookups[r]);
      places', all' := places, all;
    case Update(u, page) =>
      places', all' := UpdateMoves(c, s.mem, places, all, u, s.updates[u], page);
      ValidFormat(c, s'.mem, places', all');
      forall w | 0 <= w < |c.asked| ensures UpdateOk(c, s'.mem, all', c.asked[w], s'.updates[w]) {
        if w != u { UpdateKept(c, s.mem, s'.mem, all, all', c.asked[w], s.updates[w]); }
      }
      forall r | 0 <= r < |s.lookups| ensures LookupOk(c, all', s'.lookups[r]) {
        LookupKept(c, s.mem, s'.mem, all, all', s.lookups[r]);
      }
  }

  lemma LookupKept(c: Setup, mem: Memory, mem': Memory, all: Places, all': Places, r: Reader)
    requires c.f.Valid() && Later(c, mem, mem', all, all') && LookupOk(c, all, r)
    ensures LookupOk(c, all', r)
  {
    hide Claimed, Fair, Block;
  }

  /** A run: states and the moves between them. */
  ghost predicate Run(c: Setup, states: seq<State>, moves: seq<Move>) {
    && |states| == |moves| + 1
    && forall i {:trigger moves[i]} | 0 <= i < |moves| ::
         Enabled(c, states[i], moves[i]) && states[i + 1] == Next(c, states[i], moves[i])
  }

  lemma {:induction false} RunInv(c: Setup, states: seq<State>, moves: seq<Move>, start: Places, i: nat)
    returns (places: Places, all: Places)
    requires Run(c, states, moves) && Init(c, states[0], start) && i < |states|
    ensures Inv(c, states[i], places, all)
  {
    hide Inv, Enabled, Init;
    if i == 0 {
      InitInv(c, states[0], start);
      places, all := start, start;
    } else {
      places, all := RunInv(c, states, moves, start, i - 1);
      assert moves[i - 1] in moves;
      places, all := StepInv(c, states[i - 1], places, all, moves[i - 1]);
    }
  }

  /**
   Updates may be interleaved at will. At any time the tables form a tree, and an address translates as at the start
   or as one of the updates that cover it asks; once one of these is done, as one of them asks.
   */
  lemma Interleaved(c: Setup, states: seq<State>, moves: seq<Move>, start: Places, i: nat)
    requires Run(c, states, moves) && Init(c, states[0], start) && i < |states|
    ensures c.f.Valid() && exists places :: Shape(c.f, states[i].mem, c.root, places)
    ensures forall v: nat | v < c.f.Limit() :: Fair(c, v, Translate(c.f, states[i].mem, c.root, v))
    ensures forall u, v: nat | 0 <= u < |c.asked| == |states[i].updates| && states[i].updates[u] == Done
                               && v < c.f.Limit() && InWindow(c.asked[u], v) ::
              AskedFor(c, v, Translate(c.f, states[i].mem, c.root, v))
  {
    hide Shape, Init, Run, Fair, AskedFor, Translate, FairTable, CutOff, Asks;
    var places, all := RunInv(c, states, moves, start, i);
    forall u, v: nat | 0 <= u < |c.asked| == |states[i].updates| && states[i].updates[u] == Done
                       && v < c.f.Limit() && InWindow(c.asked[u], v)
      ensures AskedFor(c, v, Translate(c.f, states[i].mem, c.root, v))
    {
      assert UpdateOk(c, states[i].mem, all, c.asked[u], states[i].updates[u]);
      assert Claimed(c, states[i].mem, v);
    }
  }

  /** An update whose window meets no other has, once done, exactly its own effect there. */
  lemma Undisturbed(c: Setup, states: seq<State>, moves: seq<Move>, start: Places, i: nat, u: nat)
    requires Run(c, states, moves) && Init(c, states[0], start) && i < |states|
    requires u < |c.asked| == |states[i].updates| && states[i].updates[u] == Done
    requires forall w, v: nat | 0 <= w < |c.asked| && w != u && InWindow(c.asked[w], v) :: !InWindow(c.asked[u], v)
    ensures c.f.Valid() && forall v: nat | v < c.f.Limit() && InWindow(c.asked[u], v) ::
              Translate(c.f, states[i].mem, c.root, v) == Meaning(c.asked[u], v)
  {
    hide Init, Run, Translate, InWindow, Meaning;
    Interleaved(c, states, moves, start, i);
    forall v: nat | v < c.f.Limit() && InWindow(c.asked[u], v)
      ensures Translate(c.f, states[i].mem, c.root, v) == Meaning(c.asked[u], v)
    {
      assert AskedFor(c, v, Translate(c.f, states[i].mem, c.root, v));
    }
  }

  /** A lookup sees each page as it was at the start or as one of the updates asks, even in tables cut off meanwhile. */
  lemma LookupSeesWhole(c: Setup, states: seq<State>, moves: seq<Move>, start: Places, i: nat, r: nat)
    requires Run(c, states, moves) && Init(c, states[0], start) && i < |states|
    requires r < |states[i].lookups| && states[i].lookups[r].Found?
    ensures c.f.Valid() && Fair(c, states[i].lookups[r].v, Meaning(states[i].lookups[r].m, states[i].lookups[r].v))
  {
    hide Init, Run, MemInv, Fair;
    var places, all := RunInv(c, states, moves, start, i);
    ValidFormat(c, states[i].mem, places, all);
    assert LookupOk(c, all, states[i].lookups[r]);
  }
}
