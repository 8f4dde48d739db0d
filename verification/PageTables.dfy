/**
 Page-table modification: walking down with splitting, filling entries, deferred
 reclamation, and the public `update`.
 */
module PageTables {
  import opened Options
  import opened Radix
  import opened PageTableModel

  /** Outcome of `update`; `Panic` is the failing `unwrap` inside `fill_entries`. */
  datatype Outcome = Ok | OutOfMemory | Panic

  /** What a walk down ends with; `Missing` is the null pointer. */
  datatype Descent = Found(table: Page) | Missing | NoMemory

  /** DEFERRED_CLEANUP: pages to free and whether a TLB flush is due first. */
  class Cleanup {
    var flush: bool
    var pages: seq<Page>

    constructor ()
      ensures !flush && pages == []
    {
      flush, pages := false, [];
    }

    method FlushTlbLater()
      modifies this
      ensures flush && pages == old(pages)
    {
      flush := true;
    }

    method FreeLater(p: Page)
      modifies this
      ensures flush && pages == old(pages) + [p]
    {
      flush := true;
      pages := pages + [p];
    }
  }

  /** One level of the walk: `k` is the lookup before, `k'` after. */
  ghost predicate StepNeed(k: Mapping, k': Mapping, l: nat, create: bool, avail: nat, r: Descent, taken: nat) {
    var leaf, wanted := k.order == LevelOrder(l), create || k.attr.Present();
    && k.order <= LevelOrder(l)
    && (r.Missing? <==> leaf && !wanted) && (r.NoMemory? <==> leaf && wanted && avail == 0)
    && (r.Missing? ==> taken == 0) && (r.NoMemory? ==> k' == k)
    && (r.Found? ==> && taken == (if leaf then 1 else 0) && (k'.attr.Present() <==> k.attr.Present())
                     && l > 0 && k'.order == if leaf then LevelOrder(l - 1) else k.order)
  }

  /** How a walk to level `to` ends, by the leaf `k` that a lookup finds and the number of pages. */
  ghost predicate Walked(k: Mapping, to: nat, create: bool, avail: nat, r: Descent, taken: nat) {
    var need, wanted := WalkNeed(k, to), create || k.attr.Present();
    && (r.Missing? <==> need > 0 && !wanted) && (r.NoMemory? <==> wanted && avail < need)
    && (r.Found? ==> taken == need) && (r.Missing? ==> taken == 0)
  }

  /** A table is wanted where the walk has found a leaf. */
  predicate Short(k: Mapping, to: nat, create: bool) {
    LevelOrder(to) < k.order && (create || k.attr.Present())
  }

  lemma WalkedHere(k: Mapping, to: nat, create: bool, avail: nat, r: Descent)
    requires r.Found? && WalkNeed(k, to) == 0
    ensures Walked(k, to, create, avail, r, 0)
  {
  }

  lemma WalkedStops(k: Mapping, k': Mapping, l: nat, to: nat, create: bool, avail: nat, r: Descent, taken: nat)
    requires StepNeed(k, k', l, create, avail, r, taken) && !r.Found? && to < l
    ensures Walked(k, to, create, avail, r, taken) && (r.NoMemory? ==> Short(k', to, create))
  {
    if k.order == LevelOrder(l) { NeedAt(k, l, to); }
  }

  lemma WalkedOn(k: Mapping, k': Mapping, l: nat, to: nat, create: bool, avail: nat, r: Descent, taken: nat,
                 r': Descent, more: nat)
    requires StepNeed(k, k', l, create, avail, r, taken) && r.Found? && to < l && taken <= avail
    requires Walked(k', to, create, avail - taken, r', more)
    ensures Walked(k, to, create, avail, r', taken + more)
  {
    if k.order == LevelOrder(l) {
      NeedAt(k, l, to);
      NeedAt(k', l - 1, to);
    }
  }

  lemma GrownNone(pl: Places, pool: seq<Page>, to: nat, v: nat)
    ensures Grown(pl, pool, pl, pool, 0, to, v)
  {
  }

  /** The need at a table: none is missing at its level, and each level below the leaf's takes one. */
  lemma NeedHere(f: Format, mem: Memory, root: Page, places: Places, p: Page, v: nat, to: nat)
    requires Shape(f, mem, root, places) && p in places && Covers(places[p], v) && to <= places[p].level
    ensures f.Valid()
    ensures var k, l := Lookup(f, mem, root, v), places[p].level;
            && k.order <= LevelOrder(l) && (k.order == LevelOrder(l) ==> WalkNeed(k, to) == l - to)
            && (to == l ==> WalkNeed(k, to) == 0)
  {
    WalkThrough(f, mem, root, places, p, v);
    var k := WalkLevel(f, mem, p, places[p].level, v);
    NeedAt(Lookup(f, mem, root, v), k, to);
  }

  lemma GrownPool(pl0: Places, pool0: seq<Page>, pl1: Places, pool1: seq<Page>, taken: nat, to: nat, v: nat)
    requires Grown(pl0, pool0, pl1, pool1, taken, to, v)
    ensures |pool1| == |pool0| - taken
  {
  }

  lemma NeedBelow(f: Format, pl: Places, l: nat, c: nat)
    requires l > 0 && l >= f.leafLevels
    ensures BlockNeed(f, pl, l, c) == (if HasTable(pl, l - 1, c) then 0 else 1) + RunNeed(f, pl, l - 1, c * 512, 512)
  {
  }

  lemma NeedNone(f: Format, pl: Places, m: Mapping, l: nat)
    ensures FillNeed(f, pl, m, l, 0) == 0
  {
  }

  lemma NothingToFill(f: Format, pl: Places, m: Mapping, l: nat, n: nat)
    requires !m.attr.Present()
    ensures FillNeed(f, pl, m, l, n) == 0
  {
  }

  /** One more entry of a run. */
  lemma NeedStep(f: Format, pl0: Places, pool0: seq<Page>, pl: Places, pool: seq<Page>, freed: seq<Page>, taken: nat,
                 m: Mapping, l: nat, i: nat, n: nat)
    requires Accounted(pl0, pool0, pl, pool, freed, taken, l, Block(l, m.vaddr), i) && i < n
    requires forall p | p in pl0 :: p !in pool0
    ensures |pool| == |pool0| - taken && FillNeed(f, pl0, m, l, i + 1) <= FillNeed(f, pl0, m, l, n)
    ensures FillNeed(f, pl0, m, l, i + 1) == FillNeed(f, pl0, m, l, i)
            + if m.attr.Present() then BlockNeed(f, pl, l, Block(l, m.vaddr) + i) else 0
    ensures l < f.leafLevels ==> BlockNeed(f, pl, l, Block(l, m.vaddr) + i) == 0
  {
    hide BlockNeed, Distinct, ChildrenFirst, Up, Block;
    NextNeed(f, pl0, pool0, pl, pool, freed, taken, l, Block(l, m.vaddr), i);
    NeedGrows(f, pl0, l, Block(l, m.vaddr), i + 1, n);
    LeafBlock(f, pl, l, Block(l, m.vaddr) + i);
  }

  lemma TakenFits(pl0: Places, pool0: seq<Page>, pl: Places, pool: seq<Page>, freed: seq<Page>, taken: nat, l: nat,
                  lo: nat, n: nat)
    requires Accounted(pl0, pool0, pl, pool, freed, taken, l, lo, n)
    ensures taken <= |pool0|
  {
  }

  lemma LeafBlock(f: Format, pl: Places, l: nat, c: nat)
    ensures l < f.leafLevels ==> BlockNeed(f, pl, l, c) == 0
  {
  }

  /** An update of order `o` rewrites this many entries of its level. */
  lemma UpdateCount(m: Mapping)
    requires Aligned(m) && FitsLevel(m, (m.order - 12) / 9)
    ensures Count(m, (m.order - 12) / 9) == Pow2((m.order - 12) % 9)
  {
  }

  /** Only a block above the leaf levels needs further tables. */
  lemma FillNeedsHigh(f: Format, pl: Places, m: Mapping, l: nat, n: nat)
    requires FillNeed(f, pl, m, l, n) > 0
    ensures m.attr.Present() && l >= f.leafLevels
  {
    if l < f.leafLevels { LeavesNeedNone(f, pl, l, Block(l, m.vaddr), n); }
  }

  /**
   Why an update into `lo .. hi` can fail once no page is left: a table is missing on the way to one of its blocks, or
   the block is larger than a leaf can be.
   */
  ghost predicate Starved(f: Format, mem: Memory, root: Page, lo: nat, hi: nat)
    requires f.Valid()
  {
    exists m: Mapping :: StarvedBy(f, mem, root, lo, hi, m)
  }

  ghost predicate StarvedBy(f: Format, mem: Memory, root: Page, lo: nat, hi: nat, m: Mapping)
    requires f.Valid()
  {
    && 12 <= m.order && lo <= m.vaddr && m.vaddr + Pow2(m.order) <= hi
    && var l := (m.order - 12) / 9;
    Short(Lookup(f, mem, root, m.vaddr), l, m.attr.Present()) || (m.attr.Present() && f.leafLevels <= l)
  }

  lemma StarvedFrom(f: Format, places: Places, mem: Memory, root: Page, t: Mapping, o: Outcome, lo: nat, hi: nat)
    requires f.Valid() && 12 <= t.order && !o.Ok? && lo <= t.vaddr && t.vaddr + Pow2(t.order) <= hi
    requires var l := (t.order - 12) / 9;
             && (o.OutOfMemory? ==> Short(Lookup(f, mem, root, t.vaddr), l, t.attr.Present()))
             && (o.Panic? ==> FillNeed(f, places, t, l, Pow2((t.order - 12) % 9)) > 0)
    ensures StarvedBy(f, mem, root, lo, hi, t) && Starved(f, mem, root, lo, hi)
  {
    hide Pow2, FillNeed, Lookup, Short;
    var l := (t.order - 12) / 9;
    if o.Panic? { FillNeedsHigh(f, places, t, l, Pow2((t.order - 12) % 9)); }
    assert StarvedBy(f, mem, root, lo, hi, t);
  }

  /** PAGE_ALLOC: the pages still available. */
  class PagePool {
    var avail: seq<Page>
  }

  class PageTable {
    const fmt: Format
    const root: Page
    const pool: PagePool
    var mem: Memory
    ghost var places: Places
    /** The memory after each write, oldest first. */
    ghost var history: seq<Memory>

    /** A page table with one empty root table. */
    constructor (f: Format, r: Page, source: PagePool)
      requires f.Valid() && Distinct(source.avail) && r !in source.avail
      ensures Valid() && fmt == f && root == r && pool == source
      ensures forall v: nat | v < f.Limit() :: Translate(f, mem, r, v) == Unmapped
    {
      fmt, root, pool := f, r, source;
      mem := map[r := seq(512, _ => f.Empty())];
      places := map[r := Place(f.levels - 1, 0, r)];
      history := [];
      new;
      assert TableOk(fmt, mem, places, root);
    }

    ghost predicate Valid()
      reads this, pool
    {
      && Shape(fmt, mem, root, places)
      && Distinct(pool.avail)
      && forall p | p in places :: p !in pool.avail
    }

    method AllocZeroedPage() returns (r: Option<Page>)
      requires Valid()
      modifies this`mem, pool
      ensures Valid()
      ensures r.None? ==> old(pool.avail) == pool.avail == [] && mem == old(mem)
      ensures r.Some? ==>
                && old(pool.avail) != [] && r.value == old(pool.avail)[0] && r.value !in places
                && pool.avail == old(pool.avail)[1..]
                && mem == old(mem)[r.value := seq(512, _ => fmt.Empty())]
                && Agree(old(mem), mem, places)
    {
      if pool.avail == [] {
        return None;
      }
      var n := pool.avail[0];
      pool.avail := pool.avail[1..];
      mem := mem[n := seq(512, _ => fmt.Empty())];
      forall p | p in places
        ensures p in old(mem)
      {
        assert TableOk(fmt, old(mem), places, p);
      }
      ShapeSame(fmt, old(mem), mem, root, places);
      return Some(n);
    }

    /** Writes to a page outside the tree: no walker can see them. */
    method FillFromSuperpage(n: Page, e: Entry, l: nat)
      requires Valid() && n !in places && n in mem && |mem[n]| == 512
      requires l > 0 && fmt.IsSuperpage(l, e)
      modifies this`mem, this`history
      ensures Valid()
      ensures mem == old(mem)[n := seq(512, i requires 0 <= i < 512 => SplitEntry(e, l, i))]
      ensures old(history) <= history
      ensures forall k | |old(history)| <= k < |history| :: Untouched(fmt, root, old(mem), history[k])
    {
      ghost var mem0 := mem;
      forall p | p in places
        ensures p in mem0
      {
        assert TableOk(fmt, mem0, places, p);
      }
      for i := 0 to 512
        invariant n in mem && |mem[n]| == 512
        invariant mem == mem0[n := mem[n]]
        invariant forall j | 0 <= j < i :: mem[n][j] == SplitEntry(e, l, j)
        invariant old(history) <= history
        invariant forall k | |old(history)| <= k < |history| :: Untouched(fmt, root, mem0, history[k])
      {
        mem := mem[n := mem[n][i := SplitEntry(e, l, i)]];
        history := history + [mem];
        LookupSame(fmt, mem0, mem, root, places);
      }
      ShapeSame(fmt, mem0, mem, root, places);
      assert mem[n] == seq(512, i requires 0 <= i < 512 => SplitEntry(e, l, i));
    }

    /** The compare-and-swap that makes a prepared table visible. */
    method HangTable(p: Page, i: nat, n: Page, e: Entry)
      requires Valid() && p in places && i < 512
      requires places[p].level > 0 && fmt.IsLeaf(places[p].level, Read(fmt, mem, p, i))
      requires n !in places && n !in pool.avail && n in mem && |mem[n]| == 512
      requires e.frame == n && !e.superpage && e.attr == fmt.allRights
      requires forall j | 0 <= j < 512 :: LeafOk(fmt, places[p].level - 1, mem[n][j])
      modifies this
      ensures Valid()
      ensures old(p in mem && i < |mem[p]|) && mem == WriteAt(old(mem), p, i, e)
      ensures places == old(places)[n := Place(old(places)[p].level - 1, old(places)[p].block * 512 + i, p)]
      ensures history == old(history) + [mem]
      ensures TableHung(fmt, root, old(mem), mem, old(places)[p].level - 1, old(places)[p].block * 512 + i, old(mem)[n])
    {
      assert TableOk(fmt, mem, places, p);
      HangShape(fmt, mem, root, places, p, i, n, e);
      forall v: nat | v < fmt.Limit()
        ensures Lookup(fmt, WriteAt(mem, p, i, e), root, v) ==
                (if Block(places[p].level, v) == places[p].block * 512 + i then
                   LeafMapping(places[p].level - 1, mem[n][Index(places[p].level - 1, v)], v)
                 else Lookup(fmt, mem, root, v))
      {
        HangLookup(fmt, mem, root, places, p, i, n, e, v);
      }
      places := places[n := Place(places[p].level - 1, places[p].block * 512 + i, p)];
      mem := WriteAt(mem, p, i, e);
      history := history + [mem];
    }

    /** The exchange that installs a leaf; the tables below the old entry leave the tree. */
    method Exchange(p: Page, i: nat, e: Entry) returns (was: Entry)
      requires Valid() && p in places && i < 512
      requires LeafOk(fmt, places[p].level, e)
      modifies this
      ensures Valid()
      ensures was == Read(fmt, old(mem), p, i)
      ensures old(p in mem && i < |mem[p]|) && mem == WriteAt(old(mem), p, i, e)
      ensures places == old(places) - Below(old(places), old(places)[p].level, old(places)[p].block * 512 + i)
      ensures history == old(history) + [mem]
      ensures LeafWritten(fmt, root, old(mem), mem, old(places)[p].level, old(places)[p].block * 512 + i, e)
    {
      assert TableOk(fmt, mem, places, p);
      was := mem[p][i];
      CutShape(fmt, mem, root, places, p, i, e);
      forall v: nat | v < fmt.Limit()
        ensures Lookup(fmt, WriteAt(mem, p, i, e), root, v) ==
                (if Block(places[p].level, v) == places[p].block * 512 + i then LeafMapping(places[p].level, e, v)
                 else Lookup(fmt, mem, root, v))
      {
        CutLookup(fmt, mem, root, places, p, i, e, v);
      }
      places := places - Below(places, places[p].level, places[p].block * 512 + i);
      mem := WriteAt(mem, p, i, e);
      history := history + [mem];
    }

    /** A fresh table, not yet visible, with the translations of leaf `e` of level `l`. */
    method PrepareTable(c: Cleanup, e: Entry, l: nat) returns (r: Option<Page>)
      requires Valid() && l > 0 && LeafOk(fmt, l, e)
      modifies this`mem, this`history, pool, c
      ensures Valid()
      ensures c.pages == old(c.pages)
      ensures r.None? ==> pool.avail == old(pool.avail) == [] && c.flush == old(c.flush) && mem == old(mem)
      ensures r.Some? ==>
                && old(pool.avail) != [] && r.value == old(pool.avail)[0] && r.value !in places
                && pool.avail == old(pool.avail)[1..] && r.value in mem && Prepared(fmt, e, l, mem[r.value])
                && (forall j | 0 <= j < 512 :: LeafOk(fmt, l - 1, mem[r.value][j]))
                && c.flush == (old(c.flush) || fmt.IsSuperpage(l, e))
      ensures Agree(old(mem), mem, places)
      ensures forall v: nat | v < fmt.Limit() :: Lookup(fmt, mem, root, v) == Lookup(fmt, old(mem), root, v)
      ensures old(history) <= history
      ensures forall k | |old(history)| <= k < |history| :: Untouched(fmt, root, old(mem), history[k])
    {
      ghost var mem0 := mem;
      TreeInMemory(fmt, mem, root, places);
      r := AllocZeroedPage();
      if r.None? {
        return;
      }
      var n := r.value;
      LookupSame(fmt, mem0, mem, root, places);
      if fmt.IsSuperpage(l, e) {
        FillFromSuperpage(n, e, l);
        c.FlushTlbLater();
        LookupSame(fmt, mem0, mem, root, places);
        forall j | 0 <= j < 512 ensures LeafOk(fmt, l - 1, mem[n][j]) { SplitOk(fmt, e, l, j); }
      } else {
        assert forall j | 0 <= j < 512 :: LeafOk(fmt, l - 1, mem[n][j]);
      }
    }

    /**
     Replace the leaf at `(p, i)` by a table with the same translations: a copy of
     the superpage, or an empty table.
     */
    method MakeTable(c: Cleanup, p: Page, i: nat, l: nat) returns (r: Option<Page>)
      requires Valid() && p in places && i < 512
      requires places[p].level == l > 0 && fmt.IsLeaf(places[p].level, Read(fmt, mem, p, i))
      modifies this, pool, c
      ensures Valid()
      ensures c.pages == old(c.pages) && (old(c.flush) ==> c.flush)
      ensures Untouched(fmt, root, old(mem), mem)
      ensures old(history) <= history
      ensures forall k | |old(history)| <= k < |history| :: Untouched(fmt, root, old(mem), history[k])
      ensures FlushCovers(fmt, root, old(mem), mem, c.flush)
      ensures c.flush && !old(c.flush) ==> fmt.IsSuperpage(l, Read(fmt, old(mem), p, i))
      ensures r.None? ==> pool.avail == old(pool.avail) == [] && places == old(places) && mem == old(mem)
      ensures r.Some? ==>
                && old(pool.avail) != [] && r.value == old(pool.avail)[0] && r.value !in old(places)
                && pool.avail == old(pool.avail)[1..]
                && places == old(places)[r.value := Place(old(places)[p].level - 1, old(places)[p].block * 512 + i, p)]
                && Read(fmt, mem, p, i) == Entry(r.value, fmt.allRights, false)
                && OneLower(fmt, root, old(mem), mem, l, old(places)[p].block * 512 + i)
    {
      assert TableOk(fmt, mem, places, p);
      var e := mem[p][i];
      assert EntryOk(fmt, places, p, i, e);
      ghost var mem0 := mem;
      r := PrepareTable(c, e, l);
      if r.Some? {
        var n := r.value;
        assert mem[p] == mem0[p];
        ghost var t := mem[n];
        HangTable(p, i, n, Entry(n, fmt.allRights, false));
        HungMeaning(fmt, mem0, mem, root, old(places), p, i, t);
      }
    }

    /** One level of the walk down: the child table for `v`, made if need be. */
    method Step(c: Cleanup, v: nat, to: nat, p: Page, l: nat, create: bool) returns (r: Descent, ghost taken: nat)
      requires Valid() && p in places && places[p].level == l && Covers(places[p], v) && to < l
      modifies this, pool, c
      ensures Valid()
      ensures Grown(old(places), old(pool.avail), places, pool.avail, taken, to, v)
      ensures c.pages == old(c.pages) && (old(c.flush) ==> c.flush)
      ensures Untouched(fmt, root, old(mem), mem)
      ensures old(history) <= history
      ensures forall k | |old(history)| <= k < |history| :: Untouched(fmt, root, old(mem), history[k])
      ensures FlushCovers(fmt, root, old(mem), mem, c.flush)
      ensures c.flush && !old(c.flush) ==> Translate(fmt, old(mem), root, v).Mapped?
      ensures r.Found? ==> r.table in places && places[r.table].level == l - 1 && Covers(places[r.table], v)
      ensures r.Missing? ==> !create && UnmappedAround(fmt, root, mem, to + 1, v)
      ensures r.NoMemory? ==> pool.avail == []
      ensures StepNeed(Lookup(fmt, old(mem), root, v), Lookup(fmt, mem, root, v), l, create, |old(pool.avail)|, r,
                       taken)
    {
      TableReach(fmt, mem, root, places, p, v);
      WalkThrough(fmt, mem, root, places, p, v);
      ghost var k := WalkLevel(fmt, mem, p, l, v);
      assert TableOk(fmt, mem, places, p);
      var i := Index(l, v);
      var e := mem[p][i];
      assert EntryOk(fmt, places, p, i, e);
      if fmt.IsLeaf(l, e) {
        LeafLookup(fmt, mem, root, places, p, i, v);
      }
      if !e.attr.Present() && !create {
        MissingAround(fmt, mem, root, places, p, to, v);
        return Missing, 0;
      }
      if !e.attr.Present() || fmt.IsSuperpage(l, e) {
        var made := MakeTable(c, p, i, l);
        if made.None? {
          return NoMemory, 0;
        }
        GrownOne(old(places), old(pool.avail), places[made.value], to, v);
        return Found(made.value), 1;
      }
      return Found(e.frame), 0;
    }

    /** Walk down from table `p` at level `l` to level `to`, splitting and creating tables. */
    method WalkDown(c: Cleanup, v: nat, to: nat, p: Page, l: nat, create: bool) returns (r: Descent, ghost taken: nat)
      requires Valid() && p in places && places[p].level == l && Covers(places[p], v) && to <= l
      modifies this, pool, c
      ensures Valid()
      ensures Grown(old(places), old(pool.avail), places, pool.avail, taken, to, v)
      ensures c.pages == old(c.pages) && (old(c.flush) ==> c.flush)
      ensures Untouched(fmt, root, old(mem), mem)
      ensures old(history) <= history
      ensures forall k | |old(history)| <= k < |history| :: Untouched(fmt, root, old(mem), history[k])
      ensures FlushCovers(fmt, root, old(mem), mem, c.flush)
      ensures c.flush && !old(c.flush) ==> Translate(fmt, old(mem), root, v).Mapped?
      ensures r.Found? ==> r.table in places && places[r.table].level == to && Covers(places[r.table], v)
      ensures r.Missing? ==> !create && UnmappedAround(fmt, root, mem, to + 1, v)
      ensures r.NoMemory? ==> pool.avail == []
      ensures Walked(Lookup(fmt, old(mem), root, v), to, create, |old(pool.avail)|, r, taken)
      ensures r.NoMemory? ==> Short(Lookup(fmt, mem, root, v), to, create)
      decreases l
    {
      hide Shape, Block, Distinct, Lookup, Walked, StepNeed, Grown, Short;
      ghost var n := |pool.avail|;
      NeedHere(fmt, mem, root, places, p, v, to);
      if to == l {
        WalkedHere(Lookup(fmt, mem, root, v), to, create, n, Found(p));
        GrownNone(places, pool.avail, to, v);
        return Found(p), 0;
      }
      TableReach(fmt, mem, root, places, p, v);
      r, taken := Step(c, v, to, p, l, create);
      if !r.Found? {
        WalkedStops(Lookup(fmt, old(mem), root, v), Lookup(fmt, mem, root, v), l, to, create, n, r, taken);
        return;
      }
      ghost var more;
      ghost var mid, midPool, mem1, found := places, pool.avail, mem, r;
      GrownPool(old(places), old(pool.avail), places, pool.avail, taken, to, v);
      r, more := WalkDown(c, v, to, r.table, l - 1, create);
      WalkedOn(Lookup(fmt, old(mem), root, v), Lookup(fmt, mem1, root, v), l, to, create, n, found, taken, r, more);
      GrownTrans(old(places), old(pool.avail), mid, midPool, places, pool.avail, taken, more, to, v);
      taken := taken + more;
    }

    /**
     Free the tables below an entry taken out of the tree; `m0` and `pl` are the
     memory and the tree it was taken from, and `(p, i)` is where it stood.
     */
    method CleanupEntry(c: Cleanup, e: Entry, l: nat, ghost m0: Memory, ghost pl: Places, ghost p: Page, ghost i: nat)
      returns (ghost freed: seq<Page>)
      requires Shape(fmt, m0, root, pl) && p in pl && i < 512 && pl[p].level == l && e == Read(fmt, m0, p, i)
      requires forall q | q in Below(pl, l, pl[p].block * 512 + i) :: q in mem && q in m0 && mem[q] == m0[q]
      modifies c
      ensures c.pages == old(c.pages) + freed && c.flush == (old(c.flush) || e.attr.Present())
      ensures Distinct(freed) && ChildrenFirst(pl, freed)
      ensures Elems(freed) == Below(pl, l, pl[p].block * 512 + i)
      ensures !fmt.IsLeaf(l, e) <==> freed != []
      decreases l, 0
    {
      if fmt.IsLeaf(l, e) {
        freed := [];
        NothingBelowLeaf(fmt, m0, root, pl, p, i);
        if e.attr.Present() {
          c.FlushTlbLater();
        }
      } else {
        assert TableOk(fmt, m0, pl, p);
        assert EntryOk(fmt, pl, p, i, m0[p][i]);
        freed := CleanupTable(c, e.frame, l, m0, pl);
      }
    }

    /** Free the table `t`, to which an entry of level `l` pointed, and all below it. */
    method CleanupTable(c: Cleanup, t: Page, l: nat, ghost m0: Memory,
                        ghost pl: Places) returns (ghost freed: seq<Page>)
      requires Shape(fmt, m0, root, pl) && t in pl && l > 0 && pl[t].level == l - 1
      requires forall q | q in Below(pl, l, pl[t].block) :: q in mem && q in m0 && mem[q] == m0[q]
      modifies c
      ensures c.pages == old(c.pages) + freed && c.flush
      ensures Distinct(freed) && ChildrenFirst(pl, freed) && freed != []
      ensures Elems(freed) == Below(pl, l, pl[t].block)
      decreases l - 1, 1
    {
      BelowTable(fmt, m0, root, pl, t);
      assert TableOk(fmt, m0, pl, t);
      freed := [];
      for i := 0 to 512
        invariant c.pages == old(c.pages) + freed
        invariant Distinct(freed) && ChildrenFirst(pl, freed)
        invariant Elems(freed) == BelowRun(pl, l - 1, pl[t].block * 512, i)
      {
        ghost var more := CleanupEntry(c, mem[t][i], l - 1, m0, pl, t, i);
        FreedTrans(fmt, m0, root, pl, t, i, freed, more);
        freed := freed + more;
      }
      c.FreeLater(t);
      FreedTable(fmt, m0, root, pl, t, freed);
      freed := freed + [t];
    }

    /** One entry of `fill_entries` where translation stops: install a leaf, reclaim what it hides. */
    method FillLeaf(c: Cleanup, table: Page, l: nat, m: Mapping, i: nat) returns (ghost freed: seq<Page>)
      requires Valid() && table in places && places[table].level == l
      requires FitsLevel(m, l) && places[table].block == Block(l + 1, m.vaddr) && i < Count(m, l)
      requires m.attr.Present() ==> l < fmt.leafLevels
      modifies this, c
      ensures Valid()
      ensures Accounted(old(places), pool.avail, places, pool.avail, freed, 0, l, Block(l, m.vaddr) + i, 1)
      ensures c.pages == old(c.pages) + freed
      ensures Filled(fmt, root, old(mem), mem, m, l, Block(l, m.vaddr) + i, 1)
      ensures history == old(history) + [mem]
      ensures FlushRight(fmt, root, old(mem), mem, l, Block(l, m.vaddr) + i, 1, old(c.flush), c.flush, freed)
    {
      hide Filled, FlushCovers, Accounted, SomeMapped, Shape, Scale, Span, Up, Pow2, LeafWritten;
      LevelBound(fmt, mem, root, places, table);
      LeafForOk(fmt, m, l, i);
      var k := Index(l, m.vaddr) + i;
      ghost var pl0, mem0 := places, mem;
      TreeInMemory(fmt, mem, root, places);
      var was := Exchange(table, k, LeafFor(fmt, m, l, i));
      LeafMeans(fmt, root, mem0, mem, m, l, i);
      freed := CleanupEntry(c, was, l, mem0, pl0, table, k);
      LeafFlush(fmt, mem0, mem, root, pl0, table, k, LeafFor(fmt, m, l, i), c.flush);
      AccountedCut(pl0, pool.avail, freed, l, Block(l, m.vaddr) + i);
    }

    /** One entry of `fill_entries` above the leaf levels: fill the child table, made if missing. */
    method FillDown(c: Cleanup, table: Page, l: nat, m: Mapping, i: nat)
      returns (ok: bool, ghost freed: seq<Page>, ghost taken: nat)
      requires Valid() && table in places && places[table].level == l
      requires FitsLevel(m, l) && places[table].block == Block(l + 1, m.vaddr) && i < Count(m, l)
      requires m.attr.Present() && l >= fmt.leafLevels
      modifies this, pool, c
      ensures old(history) <= history
      ensures forall k | |old(history)| <= k < |history| :: Between(fmt, root, old(mem), m, history[k])
      ensures !ok ==> pool.avail == []
      ensures ok <==> BlockNeed(fmt, old(places), l, Block(l, m.vaddr) + i) <= |old(pool.avail)|
      ensures ok ==>
                && Valid()
                && taken == BlockNeed(fmt, old(places), l, Block(l, m.vaddr) + i)
                && Accounted(old(places), old(pool.avail), places, pool.avail, freed, taken, l, Block(l, m.vaddr) + i,
                             1)
                && c.pages == old(c.pages) + freed
                && Filled(fmt, root, old(mem), mem, m, l, Block(l, m.vaddr) + i, 1)
                && FlushRight(fmt, root, old(mem), mem, l, Block(l, m.vaddr) + i, 1, old(c.flush), c.flush, freed)
      decreases l, 0
    {
      hide Filled, FlushRight, Accounted, Between, Untouched, FlushCovers, Shape, Scale, Pow2, Up, Block, Count,
           BlockNeed, RunNeed, HasTable;
      LevelBound(fmt, mem, root, places, table);
      RunIndex(m, l, i);
      ghost var b := Block(l, m.vaddr) + i;
      SubFits(m, l, i);
      NeedBelow(fmt, places, l, b);
      ghost var pl0 := places;
      var child, isNew := ChildFor(c, table, l, Index(l, m.vaddr) + i);
      forall j | |old(history)| <= j < |history|
        ensures Between(fmt, root, old(mem), m, history[j])
      {
        BetweenAfter(fmt, root, old(mem), history[j], m, history[j]);
      }
      if child.None? {
        return false, [], 0;
      }
      ghost var mem1 := mem;
      ghost var pl1, h1, flush1 := places, |history|, c.flush;
      if isNew { BelowNew(fmt, pl0, child.value, places, l, b); }
      ok, freed, taken := FillEntries(c, child.value, l - 1, SubMapping(m, l, i));
      forall j | h1 <= j < |history|
        ensures Between(fmt, root, old(mem), m, history[j])
      {
        BetweenUp(fmt, root, mem1, m, l, i, history[j]);
        BetweenAfter(fmt, root, old(mem), mem1, m, history[j]);
      }
      if ok {
        FilledUp(fmt, root, mem1, mem, m, l, i);
        FilledAfter(fmt, root, old(mem), mem1, mem, m, l, b);
        FlushUp(fmt, root, mem1, mem, l, b, flush1, c.flush, freed);
        FlushAfter(fmt, root, old(mem), mem1, mem, l, b, flush1, c.flush, freed);
        if isNew {
          AccountedNew(old(places), old(pool.avail), pl1[child.value], places, pool.avail, freed, taken, l, b);
          taken := taken + 1;
        } else {
          AccountedUp(old(places), old(pool.avail), places, pool.avail, freed, taken, l, b);
        }
      }
    }

    /** The table below entry `k` of a table above the leaf levels, made if there is none. */
    method ChildFor(c: Cleanup, table: Page, l: nat, k: nat) returns (r: Option<Page>, isNew: bool)
      requires Valid() && table in places && places[table].level == l && l >= fmt.leafLevels && k < 512
      modifies this, pool, c
      ensures Valid()
      ensures c.pages == old(c.pages) && c.flush == old(c.flush)
      ensures Untouched(fmt, root, old(mem), mem) && FlushCovers(fmt, root, old(mem), mem, c.flush)
      ensures old(history) <= history
      ensures forall j | |old(history)| <= j < |history| :: Untouched(fmt, root, old(mem), history[j])
      ensures r.None? ==> pool.avail == [] == old(pool.avail)
      ensures r.Some? ==> r.value in places && places[r.value].level == l - 1
                          && places[r.value].block == old(places)[table].block * 512 + k
      ensures r.Some? && isNew ==>
                && old(pool.avail) != [] && old(pool.avail)[0] == r.value && r.value !in old(places)
                && pool.avail == old(pool.avail)[1..] && places == old(places)[r.value := places[r.value]]
      ensures r.Some? && !isNew ==> places == old(places) && pool.avail == old(pool.avail)
      ensures r.Some? && !isNew <==> HasTable(old(places), l - 1, old(places)[table].block * 512 + k)
    {
      assert TableOk(fmt, mem, places, table);
      var e := mem[table][k];
      assert EntryOk(fmt, places, table, k, e);
      if !e.attr.Present() { SlotFree(fmt, mem, root, places, table, k); }
      if e.attr.Present() {
        return Some(e.frame), false;
      }
      r := MakeTable(c, table, k, l);
      isNew := true;
    }

    /** Recursively write the entries that `m` covers in `table`. */
    method FillEntries(c: Cleanup, table: Page, l: nat, m: Mapping)
      returns (ok: bool, ghost freed: seq<Page>, ghost taken: nat)
      requires Valid() && table in places && places[table].level == l
      requires FitsLevel(m, l) && places[table].block == Block(l + 1, m.vaddr)
      modifies this, pool, c
      ensures old(history) <= history
      ensures forall k | |old(history)| <= k < |history| :: Between(fmt, root, old(mem), m, history[k])
      ensures !ok ==> pool.avail == []
      ensures ok <==> FillNeed(fmt, old(places), m, l, Count(m, l)) <= |old(pool.avail)|
      ensures ok ==>
                && Valid()
                && taken == FillNeed(fmt, old(places), m, l, Count(m, l))
                && Accounted(old(places), old(pool.avail), places, pool.avail, freed, taken, l, Block(l, m.vaddr),
                             Count(m, l))
                && c.pages == old(c.pages) + freed
                && Filled(fmt, root, old(mem), mem, m, l, Block(l, m.vaddr), Count(m, l))
                && FlushRight(fmt, root, old(mem), mem, l, Block(l, m.vaddr), Count(m, l), old(c.flush), c.flush, freed)
      decreases l, 1
    {
      hide Filled, FlushRight, Accounted, Between, FlushCovers, Shape, Distinct, Count, Block, Scale, BlockNeed,
           FillNeed;
      ghost var lo := Block(l, m.vaddr);
      freed, taken, ok := [], 0, true;
      NeedNone(fmt, places, m, l);
      LevelBound(fmt, mem, root, places, table);
      NothingFilled(fmt, root, mem, m, l, lo, c.flush, places, pool.avail);
      for i := 0 to Count(m, l)
        invariant Valid() && table in places && places[table] == old(places)[table]
        invariant Accounted(old(places), old(pool.avail), places, pool.avail, freed, taken, l, lo, i)
        invariant c.pages == old(c.pages) + freed
        invariant Filled(fmt, root, old(mem), mem, m, l, lo, i)
        invariant FlushRight(fmt, root, old(mem), mem, l, lo, i, old(c.flush), c.flush, freed)
        invariant old(history) <= history
        invariant forall k | |old(history)| <= k < |history| :: Between(fmt, root, old(mem), m, history[k])
        invariant taken == FillNeed(fmt, old(places), m, l, i)
      {
        NeedStep(fmt, old(places), old(pool.avail), places, pool.avail, freed, taken, m, l, i, Count(m, l));
        ghost var mem1, h1 := mem, |history|;
        ghost var pl1, pool1, flush1 := places, pool.avail, c.flush;
        ghost var freed', taken' := [], 0;
        if l < fmt.leafLevels || !m.attr.Present() {
          freed' := FillLeaf(c, table, l, m, i);
          FilledBetween(fmt, root, mem1, mem, m, l, i);
        } else {
          ok, freed', taken' := FillDown(c, table, l, m, i);
        }
        forall j | h1 <= j < |history|
          ensures Between(fmt, root, old(mem), m, history[j])
        {
          BetweenTrans(fmt, root, old(mem), mem1, m, l, i, history[j]);
        }
        if !ok {
          return;
        }
        AccountedKeeps(pl1, pool1, places, pool.avail, freed', taken', l, lo + i, 1, table);
        LevelBound(fmt, mem1, root, pl1, table);
        AccountedTrans(fmt, mem1, root, old(places), old(pool.avail), pl1, pool1, places, pool.avail, freed, freed',
                       taken, taken', l, lo, i, 1);
        FilledTrans(fmt, root, old(mem), mem1, mem, m, l, lo, i, 1);
        FlushTrans(fmt, root, old(mem), mem1, mem, m, l, lo, i, 1, old(c.flush), flush1, c.flush, freed, freed');
        freed, taken := freed + freed', taken + taken';
      }
      TakenFits(old(places), old(pool.avail), places, pool.avail, freed, taken, l, lo, Count(m, l));
    }

    /**
     The public `update`. On success the window of `m` translates as `m` asks and every
     other address as before; out of memory, nothing changed. After every single write
     each address shows its old or its new translation. Exactly the tables that left
     the tree are handed to `c`, and exactly the pages taken from the pool joined it.
     */
    method Update(c: Cleanup, m: Mapping) returns (r: Outcome, ghost freed: seq<Page>, ghost taken: nat)
      requires Valid() && Aligned(m) && m.order < fmt.MaxOrder() && m.vaddr < fmt.Limit()
      modifies this, pool, c
      ensures old(history) <= history
      ensures forall k | |old(history)| <= k < |history| :: Between(fmt, root, old(mem), m, history[k])
      ensures r.Ok? ==> Updated(fmt, root, old(mem), mem, m)
      ensures r.OutOfMemory? ==> Untouched(fmt, root, old(mem), mem) && freed == []
      ensures !r.Ok? ==> pool.avail == []
      ensures var l, k := (m.order - 12) / 9, Lookup(fmt, old(mem), root, m.vaddr);
              var need := if m.attr.Present() || k.attr.Present() then WalkNeed(k, l) else 0;
              var more := FillNeed(fmt, old(places), m, l, Pow2((m.order - 12) % 9));
              && (r.OutOfMemory? <==> |old(pool.avail)| < need)
              && (r.Panic? <==> need <= |old(pool.avail)| < need + more)
              && (r.Ok? ==> taken == need + more)
              && (r.OutOfMemory? ==> Short(Lookup(fmt, mem, root, m.vaddr), l, m.attr.Present()))
      ensures !r.Panic? ==>
                && Valid()
                && c.pages == old(c.pages) + freed
                && Rebuilt(fmt, root, old(mem), old(places), old(pool.avail), mem, pool.avail, freed, taken)
                && FlushSound(fmt, root, old(mem), mem, m, old(c.flush), c.flush, freed)
                && Relocated(old(places), places, m, freed)
    {
      hide Filled, FlushRight, Accounted, Between, Untouched, FlushCovers, Shape, Scale, Pow2, Up, Block, Count,
           Updated, Rebuilt, FlushSound, Grown, Relocated, FillNeed, WalkNeed, Lookup, Short;
      var l := (m.order - 12) / 9;
      UpdateLevel(fmt, mem, root, places, m);
      UpdateCount(m);
      ghost var pl0, pool0 := places, pool.avail;
      var d;
      d, taken := WalkDown(c, m.vaddr, l, root, fmt.levels - 1, m.attr.Present());
      forall j | |old(history)| <= j < |history|
        ensures Between(fmt, root, old(mem), m, history[j])
      {
        BetweenAfter(fmt, root, old(mem), history[j], m, history[j]);
      }
      ghost var mem1 := mem;
      ghost var pl1, pool1, flush1, h1 := places, pool.avail, c.flush, |history|;
      match d
      case NoMemory =>
        freed := [];
        RebuiltGrown(fmt, root, old(mem), pl0, pool0, mem, places, pool.avail, taken, l, m.vaddr);
        RelocatedGrown(pl0, pool0, places, pool.avail, m, taken, l);
        FlushDescent(fmt, root, old(mem), mem, m, old(c.flush), c.flush);
        return OutOfMemory, freed, taken;
      case Missing =>
        freed := [];
        RebuiltGrown(fmt, root, old(mem), pl0, pool0, mem, places, pool.avail, taken, l, m.vaddr);
        RelocatedGrown(pl0, pool0, places, pool.avail, m, taken, l);
        FlushDescent(fmt, root, old(mem), mem, m, old(c.flush), c.flush);
        UpdatedMissing(fmt, root, old(mem), mem, m, l);
        NothingToFill(fmt, pl0, m, l, Count(m, l));
        return Ok, freed, taken;
      case Found(table) =>
        var ok;
        ghost var taken';
        GrownPool(pl0, pool0, places, pool.avail, taken, l, m.vaddr);
        GrownNeed(fmt, pl0, pool0, places, pool.avail, taken, m, l, Count(m, l));
        ok, freed, taken' := FillEntries(c, table, l, m);
        forall j | h1 <= j < |history|
          ensures Between(fmt, root, old(mem), m, history[j])
        {
          BetweenAfter(fmt, root, old(mem), mem1, m, history[j]);
        }
        if !ok {
          return Panic, freed, taken + taken';
        }
        UpdatedFilled(fmt, root, old(mem), mem1, mem, m, l);
        FlushBoth(fmt, root, old(mem), mem1, mem, m, l, old(c.flush), flush1, c.flush, freed);
        RebuiltBoth(fmt, root, old(mem), pl0, pool0, mem1, pl1, pool1, mem, places, pool.avail, taken, freed, taken', l,
                    Block(l, m.vaddr), Count(m, l), m.vaddr);
        RelocatedBoth(pl0, pool0, pl1, pool1, places, pool.avail, m, taken, freed, taken', l);
        return Ok, freed, taken + taken';
    }

    /** The destructor: every table goes to the cleanup once, children first. */
    method Destroy(c: Cleanup) returns (ghost freed: seq<Page>)
      requires Valid()
      modifies c
      ensures c.pages == old(c.pages) + freed && Distinct(freed) && ChildrenFirst(places, freed)
      ensures Elems(freed) == Tables(fmt, mem, root, fmt.levels - 1)
    {
      TreeInMemory(fmt, mem, root, places);
      freed := CleanupTable(c, root, fmt.levels, mem, places);
      TablesBelow(fmt, mem, root, places, root);
    }
  }
}
