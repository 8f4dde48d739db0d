/**
 The buddy allocator: one circular free list per order, threaded through the per-page
 block descriptors, with the list heads as sentinels.
 */
module BuddyAllocator {
  import opened Options
  import opened Radix
  import opened Rings
  import opened BuddyLayout

  /** A list node: the head of the list for one order, or the descriptor of a page. */
  datatype Ref = Head(k: nat) | Block(i: int)

  datatype Tag = Used | Free

  type Links = map<Ref, Ref>

  /** The list of order `k` holds exactly the free blocks of that order. */
  ghost predicate RingOk(next: Links, prev: Links, r: seq<Ref>, k: nat, y: Layout) {
    && IsRing(next, prev, r) && r[0] == Head(k)
    && (forall x | x in r :: x == Head(k) || (x.Block? && FreeBlock(y, x.i, k)))
    && (forall i | FreeBlock(y, i, k) :: Block(i) in r)
  }

  ghost predicate RingsOk(next: Links, prev: Links, rings: seq<seq<Ref>>, y: Layout) {
    |rings| == y.top && forall k {:trigger rings[k]} | 0 <= k < |rings| :: RingOk(next, prev, rings[k], k, y)
  }

  ghost predicate TagOk(ord: map<int, nat>, tag: map<int, Tag>, y: Layout, s: int)
    requires s in y.blocks
  {
    s in ord && s in tag && ord[s] == y.blocks[s] && tag[s] == if s in y.free then Free else Used
  }

  /** The descriptors of all block starts but `except` are current. */
  ghost predicate TagsOk(ord: map<int, nat>, tag: map<int, Tag>, y: Layout, except: set<int>) {
    forall s {:trigger TagOk(ord, tag, y, s)} | s in y.blocks && s !in except :: TagOk(ord, tag, y, s)
  }

  /** Rings of different orders share no node. */
  lemma RingsApart(next: Links, prev: Links, rings: seq<seq<Ref>>, y: Layout, j: nat, k: nat, x: Ref)
    requires RingsOk(next, prev, rings, y) && j < |rings| && k < |rings| && j != k && x in rings[j]
    ensures x !in rings[k]
  {
  }

  /** Unlinking a free block from its list. */
  lemma RingsRemove(next: Links, prev: Links, rings: seq<seq<Ref>>, y: Layout, z: Layout, k: nat,
                    i: int) returns (p: nat)
    requires RingsOk(next, prev, rings, y) && k < |rings| && FreeBlock(y, i, k) && z.top == y.top
    requires forall s, j :: FreeBlock(z, s, j) <==> FreeBlock(y, s, j) && s != i
    ensures 0 < p < |rings[k]| && rings[k][p] == Block(i)
    ensures var b := Block(i);
            && b in prev && b in next
            && RingsOk(next[prev[b] := next[b]], prev[next[b] := prev[b]], rings[k := Without(rings[k], p)], z)
  {
    var r, b := rings[k], Block(i);
    p :| 0 <= p < |r| && r[p] == b;
    Unlink(next, prev, r, p);
    Neighbours(next, prev, r, p);
    WithoutMembers(r, p);
    var next', prev', rings' := next[prev[b] := next[b]], prev[next[b] := prev[b]], rings[k := Without(r, p)];
    forall j | 0 <= j < |rings|
      ensures RingOk(next', prev', rings'[j], j, z)
    {
      if j != k {
        RingsApart(next, prev, rings, y, k, j, b);
        OtherRing(next, prev, rings, y, next', prev', j, k, b);
      }
    }
  }

  /** Linking a block in right behind the head of its list. */
  lemma RingsAdd(next: Links, prev: Links, rings: seq<seq<Ref>>, y: Layout, z: Layout, k: nat, i: int)
    requires RingsOk(next, prev, rings, y) && k < |rings| && i !in y.free && z.top == y.top
    requires forall s, j :: FreeBlock(z, s, j) <==> FreeBlock(y, s, j) || (s == i && j == k)
    ensures var h, b := Head(k), Block(i);
            && h in next && next[h] in prev
            && RingsOk(next[b := next[h]][h := b], prev[b := h][next[h] := b], rings[k := With(rings[k], 1, b)], z)
  {
    var r, h, b := rings[k], Head(k), Block(i);
    assert b !in r;
    LinkAfter(next, prev, r, 0, b);
    Neighbours(next, prev, r, 0);
    WithMembers(r, 1, b);
    var next', prev', rings' := next[b := next[h]][h := b], prev[b := h][next[h] := b], rings[k := With(r, 1, b)];
    forall j | 0 <= j < |rings|
      ensures RingOk(next', prev', rings'[j], j, z)
    {
      if j != k {
        assert b !in rings[j];
        OtherRing(next, prev, rings, y, next', prev', j, k, b);
      }
    }
  }

  /** A ring keeps its links when only `b` and nodes of another ring change. */
  lemma OtherRing(next: Links, prev: Links, rings: seq<seq<Ref>>, y: Layout, next': Links, prev': Links, j: nat, k: nat,
                  b: Ref)
    requires RingsOk(next, prev, rings, y) && j < |rings| && k < |rings| && j != k && b !in rings[j]
    requires forall x | x in next && x !in rings[k] && x != b :: x in next' && next'[x] == next[x]
    requires forall x | x in prev && x !in rings[k] && x != b :: x in prev' && prev'[x] == prev[x]
    ensures IsRing(next', prev', rings[j])
  {
    forall x | x in rings[j]
      ensures x in next && x in next' && next'[x] == next[x] && x in prev && x in prev' && prev'[x] == prev[x]
    {
      RingsApart(next, prev, rings, y, j, k, x);
      var n :| 0 <= n < |rings[j]| && rings[j][n] == x;
      Neighbours(next, prev, rings[j], n);
    }
    RingFrame(next, prev, next', prev', rings[j]);
  }

  /** `z` is `y` with the pages of block `i`, of order `k`, added to or taken from the free ones. */
  ghost predicate PagesChanged(less: Layout, more: Layout, i: int, k: nat) {
    forall p | less.lo <= p < less.hi :: FreePage(more, p) <==> FreePage(less, p) || Covers(i, k, p)
  }

  /** A block in use keeps its place and size. */
  ghost predicate UsedBlock(y: Layout, s: int, k: nat) {
    s in y.blocks && y.blocks[s] == k && s !in y.free
  }

  ghost predicate UsedKept(y: Layout, z: Layout, except: int) {
    forall s, k | UsedBlock(y, s, k) && s != except :: UsedBlock(z, s, k)
  }

  class Buddy {
    const lo: int
    const hi: int
    const order: nat
    var next: Links
    var prev: Links
    var ord: map<int, nat>
    var tag: map<int, Tag>
    ghost var y: Layout
    ghost var rings: seq<seq<Ref>>

    /** Everything but the descriptors of the blocks in `except` is in order. */
    ghost predicate Consistent(except: set<int>)
      reads this
    {
      && y.lo == lo && y.hi == hi && y.top == order
      && Good(y) && RingsOk(next, prev, rings, y) && TagsOk(ord, tag, y, except)
    }

    ghost predicate Valid()
      reads this
    {
      Consistent({})
    }

    /** An allocator whose pages are all in use, as zeroed descriptors say. */
    constructor (low: int, high: int, lists: nat)
      requires low <= high && lists >= 1
      ensures Valid() && lo == low && hi == high && order == lists
      ensures forall p | low <= p < high :: UsedBlock(y, p, 0)
    {
      lo, hi, order := low, high, lists;
      next := map k | 0 <= k < lists :: Head(k) := Head(k);
      prev := map k | 0 <= k < lists :: Head(k) := Head(k);
      ord := map p | p in Pages(low, high) :: 0;
      tag := map p | p in Pages(low, high) :: Used;
      y := Layout(low, high, lists, map p | p in Pages(low, high) :: 0, map p | p in Pages(low, high) :: p, {});
      rings := seq(lists, k requires 0 <= k < lists => [Head(k)]);
      new;
      SinglePages(y);
      forall k | 0 <= k < |rings|
        ensures RingOk(next, prev, rings[k], k, y)
      {
        assert LinkedAt(next, prev, rings[k], 0);
      }
    }

    /** Unlink the free block `i` from the list of its order. */
    method Dequeue(i: int, ghost k: nat, ghost z: Layout)
      requires RingsOk(next, prev, rings, y) && k < |rings| && FreeBlock(y, i, k) && z.top == y.top
      requires forall s, j :: FreeBlock(z, s, j) <==> FreeBlock(y, s, j) && s != i
      modifies this`next, this`prev, this`rings, this`y
      ensures RingsOk(next, prev, rings, z) && y == z
      ensures forall j | 0 <= j < |rings| && j != k :: rings[j] == old(rings)[j]
      ensures |rings| == |old(rings)|
    {
      ghost var p := RingsRemove(next, prev, rings, y, z, k, i);
      var b := Block(i);
      Neighbours(next, prev, rings[k], p);
      var before, after := prev[b], next[b];
      next := next[before := after];
      prev := prev[after := before];
      rings := rings[k := Without(rings[k], p)];
      y := z;
    }

    /** Link block `i` in at the front of the list of order `k`. */
    method Enqueue(i: int, k: nat, ghost z: Layout)
      requires RingsOk(next, prev, rings, y) && k < |rings| && i !in y.free && z.top == y.top
      requires forall s, j :: FreeBlock(z, s, j) <==> FreeBlock(y, s, j) || (s == i && j == k)
      modifies this`next, this`prev, this`rings, this`y
      ensures RingsOk(next, prev, rings, z) && y == z
    {
      RingsAdd(next, prev, rings, y, z, k, i);
      var h, b := Head(k), Block(i);
      prev := prev[b := h];
      next := next[b := next[h]];
      prev := prev[next[b] := b];
      next := next[h := b];
      rings := rings[k := With(rings[k], 1, b)];
      y := z;
    }

    /** Give back the right half of a block in use, as a free block of order `j`. */
    method SplitOnce(block: int, j: nat)
      requires Consistent({block}) && UsedBlock(y, block, j + 1) && j < |rings| && |rings[j]| == 1
      modifies this
      ensures Consistent({block}) && UsedBlock(y, block, j) && UsedKept(old(y), y, block)
      ensures |rings| == |old(rings)| && forall i | 0 <= i < j :: rings[i] == old(rings)[i]
      ensures block in old(ord) ==> block in ord && ord[block] == old(ord)[block]
      ensures block in old(tag) ==> block in tag && tag[block] == old(tag)[block]
      ensures forall p | lo <= p < hi ::
                FreePage(y, p) || Covers(block, j, p) <==> FreePage(old(y), p) || Covers(block, j + 1, p)
    {
      hide Partition, Coalesced, RingsOk, TagsOk, Covers, FreePage, FreeBlock, Pow2;
      var buddy := block + Pow2(j);
      ghost var z := Split(y, block);
      SplitGood(y, block);
      forall p | lo <= p < hi
        ensures FreePage(z, p) || Covers(block, j, p) <==> FreePage(y, p) || Covers(block, j + 1, p)
      {
        SplitPages(y, block, p);
      }
      SplitLists(next, prev, rings, y, block);
      RingsAdd(next, prev, rings, y, z, j, buddy);
      SplitTags(ord, tag, y, block);
      prev := prev[Block(buddy) := Head(j)];
      next := next[Block(buddy) := Head(j)];
      ord := ord[buddy := j];
      tag := tag[buddy := Free];
      next := next[Head(j) := Block(buddy)];
      prev := prev[Head(j) := Block(buddy)];
      rings := rings[j := With(rings[j], 1, Block(buddy))];
      y := z;
    }

    /** Cut a block in use down to order `target`, giving the right halves back one by one. */
    method SplitDown(block: int, from: nat, target: nat)
      requires Consistent({block}) && UsedBlock(y, block, from) && target <= from <= |rings|
      requires forall j | target <= j < from :: |rings[j]| == 1
      requires block in ord && ord[block] == target && block in tag && tag[block] == Used
      modifies this
      ensures Valid() && UsedBlock(y, block, target) && UsedKept(old(y), y, block)
      ensures forall p | lo <= p < hi ::
                FreePage(y, p) || Covers(block, target, p) <==> FreePage(old(y), p) || Covers(block, from, p)
    {
      hide Partition, Coalesced, RingsOk, TagsOk, Covers, FreePage;
      var j := from;
      while j != target
        invariant target <= j <= from <= |rings|
        invariant Consistent({block}) && UsedBlock(y, block, j) && UsedKept(old(y), y, block)
        invariant forall i | target <= i < j :: |rings[i]| == 1
        invariant block in ord && ord[block] == target && block in tag && tag[block] == Used
        invariant forall p | lo <= p < hi ::
                    FreePage(y, p) || Covers(block, j, p) <==> FreePage(old(y), p) || Covers(block, from, p)
      {
        j := j - 1;
        SplitOnce(block, j);
      }
      TagsDone(ord, tag, y, block);
    }

    /** `try_alloc`: a block of `2^want` pages, or nothing if there is no aligned run of them. */
    method TryAlloc(want: nat) returns (r: Option<int>)
      requires Valid()
      modifies this
      ensures Valid()
      ensures r.None? ==> y == old(y) && (want < order ==> forall b :: !FreeRun(y, b, want))
      ensures r.Some? ==>
                && want < order && FreeRun(old(y), r.value, want)
                && UsedBlock(y, r.value, want) && UsedKept(old(y), y, r.value)
                && PagesChanged(y, old(y), r.value, want)
    {
      var j := want;
      while j < order
        invariant want <= j && Valid() && y == old(y)
        invariant forall i | want <= i < j :: i < order && |rings[i]| == 1
      {
        HeadOf(next, prev, rings, y, j);
        if next[Head(j)] == Head(j) {
          j := j + 1;
        } else {
          var i := next[Head(j)].i;
          TakeGood(y, i);
          TakeFacts(y, i, j, want);
          TakeTags(ord, tag, y, i, want);
          Dequeue(i, j, Take(y, i));
          ord := ord[i := want];
          tag := tag[i := Used];
          ghost var y1 := y;
          SplitDown(i, j, want);
          AllocPages(old(y), y1, y, i, j, want);
          return Some(i);
        }
      }
      if want < order { NoLists(next, prev, rings, y, want); }
      return None;
    }

    /** Take the free buddy of the block being freed off its list and merge the two. */
    method Absorb(block: int, k: nat) returns (merged: int)
      requires Consistent({block}) && UsedBlock(y, block, k) && k + 1 < order
      requires FreeBlock(y, BuddyOf(block, k), k)
      modifies this`next, this`prev, this`rings, this`y
      ensures Consistent({merged}) && UsedBlock(y, merged, k + 1)
      ensures forall s, j | UsedBlock(old(y), s, j) && s != block :: s != merged && UsedBlock(y, s, j)
      ensures forall p | lo <= p < hi ::
                FreePage(y, p) || Covers(merged, k + 1, p) <==> FreePage(old(y), p) || Covers(block, k, p)
    {
      hide Partition, Coalesced, RingsOk, TagsOk, Covers, FreePage, Pow2, BuddyOf;
      var buddy := BuddyOf(block, k);
      ghost var z := Merge(y, block);
      MergeGood(y, block);
      MergeFree(y, block);
      MergeTags(ord, tag, y, block);
      forall p | lo <= p < hi
        ensures FreePage(z, p) || Covers(if buddy < block then buddy else block, k + 1, p) <==>
                FreePage(y, p) || Covers(block, k, p)
      {
        MergePages(y, block, p);
      }
      MergeUsed(y, block);
      ListCount(next, prev, rings, y);
      Dequeue(buddy, k, z);
      merged := if buddy < block then buddy else block;
    }

    /** `free`: return a block in use, joining it with free buddies as far as they go. */
    method FreeBlockAt(i: int)
      requires Valid() && i in y.blocks && i !in y.free
      modifies this
      ensures Valid() && PagesChanged(old(y), y, i, old(y).blocks[i]) && UsedKept(old(y), y, i)
    {
      hide Partition, Coalesced, RingsOk, TagsOk, Covers, FreePage, Pow2, BuddyOf;
      TagAt(ord, tag, y, i, {});
      TagsExcept(ord, tag, y, i);
      UsedBelowTop(y, i);
      var block, k := i, ord[i];
      while k + 1 < order
        invariant Consistent({block}) && UsedBlock(y, block, k) && k < order
        invariant forall s, j | UsedBlock(old(y), s, j) && s != i :: s != block && UsedBlock(y, s, j)
        invariant forall p | lo <= p < hi ::
                    FreePage(y, p) || Covers(block, k, p) <==> FreePage(old(y), p) || Covers(i, old(y).blocks[i], p)
        invariant ord == old(ord) && tag == old(tag)
        decreases order - k
      {
        var buddy := BuddyOf(block, k);
        if buddy < lo || buddy >= hi {
          break;
        }
        BuddyIsStart(y, block);
        TagAt(ord, tag, y, buddy, {block});
        if tag[buddy] == Used || ord[buddy] != k {
          break;
        }
        block := Absorb(block, k);
        k := k + 1;
      }
      ghost var z := Put(y, block);
      if k + 1 < order { NotAbsorbed(ord, tag, y, block, {block}); }
      PutGood(y, block);
      PutFacts(ord, tag, y, block);
      ListCount(next, prev, rings, y);
      ord := ord[block := k];
      tag := tag[block := Free];
      Enqueue(block, k, z);
    }

    /** The constructor's loop: release every page from `first` on, one at a time. */
    method Populate(first: int)
      requires Valid() && lo <= first <= hi && forall p | lo <= p < hi :: UsedBlock(y, p, 0)
      modifies this
      ensures Valid() && forall p | lo <= p < hi :: FreePage(y, p) <==> first <= p
      ensures forall p | lo <= p < first :: UsedBlock(y, p, 0)
    {
      hide Good, RingsOk, TagsOk, Pow2;
      Pow2Zero();
      NoneFree(y);
      for i := first to hi
        invariant Valid()
        invariant forall p | lo <= p < first || i <= p < hi :: UsedBlock(y, p, 0)
        invariant forall p | lo <= p < hi :: FreePage(y, p) <==> first <= p < i
      {
        assert UsedBlock(y, i, 0);
        ghost var y0 := y;
        FreeBlockAt(i);
        forall p | lo <= p < first || i < p < hi ensures UsedBlock(y, p, 0) { assert UsedBlock(y0, p, 0); }
      }
    }
  }

  lemma NoneFree(y: Layout)
    requires Good(y) && forall p | y.lo <= p < y.hi :: UsedBlock(y, p, 0)
    ensures forall p | y.lo <= p < y.hi :: !FreePage(y, p)
  {
    Pow2Zero();
    forall p | y.lo <= p < y.hi
      ensures !FreePage(y, p)
    {
      assert UsedBlock(y, p, 0);
      assert BlockOk(y, p);
      assert Covers(p, 0, p);
    }
  }

  /** Allocating a block and freeing it again restores every free block. */
  lemma AllocThenFree(y: Layout, z: Layout, w: Layout, i: int, k: nat, s: int, j: nat)
    requires Good(y) && Good(w) && y.lo == z.lo == w.lo && y.hi == z.hi == w.hi && y.top == w.top
    requires PagesChanged(z, y, i, k) && PagesChanged(z, w, i, k)
    ensures FreeBlock(y, s, j) <==> FreeBlock(w, s, j)
  {
    hide Good;
    if FreeBlock(y, s, j) { FreeBlocksDetermined(y, w, s, j); }
    if FreeBlock(w, s, j) { FreeBlocksDetermined(w, y, s, j); }
  }

  lemma SplitTags(ord: map<int, nat>, tag: map<int, Tag>, y: Layout, s: int)
    requires Good(y) && s in y.blocks && s !in y.free && y.blocks[s] > 0 && TagsOk(ord, tag, y, {s})
    ensures var k := y.blocks[s] - 1; var c := s + Pow2(k);
            c != s && TagsOk(ord[c := k], tag[c := Free], Split(y, s), {s}) && UsedKept(y, Split(y, s), s)
  {
    hide Pow2;
    var k := y.blocks[s] - 1;
    var c, z := s + Pow2(k), Split(y, s);
    forall t | t in z.blocks && t != s
      ensures TagOk(ord[c := k], tag[c := Free], z, t)
    {
      if t != c { assert TagOk(ord, tag, y, t); }
    }
    forall t | t in y.blocks ensures t != c { SplitOldStart(y, s, t); }
  }

  lemma TagsDone(ord: map<int, nat>, tag: map<int, Tag>, y: Layout, s: int)
    requires TagsOk(ord, tag, y, {s}) && s in y.blocks && TagOk(ord, tag, y, s)
    ensures TagsOk(ord, tag, y, {})
  {
    forall t | t in y.blocks ensures TagOk(ord, tag, y, t) { assert t != s ==> TagOk(ord, tag, y, t); }
  }

  /** Splitting adds one free block, on a list that is still empty. */
  lemma SplitLists(next: Links, prev: Links, rings: seq<seq<Ref>>, y: Layout, s: int)
    requires Good(y) && RingsOk(next, prev, rings, y) && s in y.blocks && s !in y.free && y.blocks[s] > 0
    requires y.blocks[s] - 1 < |rings| && |rings[y.blocks[s] - 1]| == 1
    ensures var k := y.blocks[s] - 1; var c := s + Pow2(k);
            && c !in y.free && y.blocks[s] < y.top
            && (forall t, j :: FreeBlock(Split(y, s), t, j) <==> FreeBlock(y, t, j) || (t == c && j == k))
            && Head(k) in next && next[Head(k)] == Head(k)
  {
    var k := y.blocks[s] - 1;
    assert BlockOk(y, s);
    Neighbours(next, prev, rings[k], 0);
    forall t | t in y.free ensures t != s + Pow2(k) { SplitOldStart(y, s, t); }
  }

  function Pages(lo: int, hi: int): (r: set<int>)
    requires lo <= hi
    ensures forall p :: p in r <==> lo <= p < hi
    decreases hi - lo
  {
    if lo == hi then {} else {lo} + Pages(lo + 1, hi)
  }

  lemma SinglePages(y: Layout)
    requires y.free == {} && y.top >= 1
    requires forall p :: p in y.blocks <==> y.lo <= p < y.hi
    requires forall p | p in y.blocks :: y.blocks[p] == 0
    requires forall p :: p in y.start <==> y.lo <= p < y.hi
    requires forall p | p in y.start :: y.start[p] == p
    ensures Good(y)
  {
    Pow2Zero();
    forall s | s in y.blocks ensures BlockOk(y, s) { }
  }

  // ------------------------------------------------------- steps of try_alloc

  /** The head of a list points to itself or to a free block of that order. */
  lemma HeadOf(next: Links, prev: Links, rings: seq<seq<Ref>>, y: Layout, j: nat)
    requires RingsOk(next, prev, rings, y) && j < y.top
    ensures Head(j) in next
    ensures next[Head(j)] == Head(j) <==> |rings[j]| == 1
    ensures next[Head(j)] != Head(j) ==> next[Head(j)].Block? && FreeBlock(y, next[Head(j)].i, j)
  {
    var r := rings[j];
    Neighbours(next, prev, r, 0);
    if |r| > 1 { assert r[1] in r; }
  }

  lemma TakeFacts(y: Layout, i: int, j: nat, want: nat)
    requires Good(y) && FreeBlock(y, i, j) && want <= j
    ensures forall s, k :: FreeBlock(Take(y, i), s, k) <==> FreeBlock(y, s, k) && s != i
    ensures UsedBlock(Take(y, i), i, j) && FreeRun(y, i, want)
  {
    BlockIsRun(y, i, j);
    BuddyLayout.AlignedDown(i, j, want);
    Pow2Up(want, j);
  }

  lemma TakeTags(ord: map<int, nat>, tag: map<int, Tag>, y: Layout, i: int, want: nat)
    requires TagsOk(ord, tag, y, {})
    ensures TagsOk(ord[i := want], tag[i := Used], Take(y, i), {i})
  {
    forall s | s in y.blocks && s != i
      ensures TagOk(ord[i := want], tag[i := Used], Take(y, i), s) { assert TagOk(ord, tag, y, s); }
  }

  lemma AllocPages(y: Layout, y1: Layout, z: Layout, i: int, j: nat, want: nat)
    requires Good(y) && FreeBlock(y, i, j) && want <= j && y1 == Take(y, i) && z.lo == y.lo && z.hi == y.hi
    requires Good(z) && UsedBlock(z, i, want) && UsedKept(y1, z, i)
    requires forall p | y.lo <= p < y.hi :: FreePage(z, p) || Covers(i, want, p) <==> FreePage(y1, p) || Covers(i, j, p)
    ensures PagesChanged(z, y, i, want) && UsedKept(y, z, i)
  {
    assert BlockOk(y, i) && BlockOk(z, i);
    forall p | y.lo <= p < y.hi
      ensures FreePage(y, p) <==> FreePage(z, p) || Covers(i, want, p)
    {
      StartOf(y, p);
    }
    assert forall s, k | UsedBlock(y, s, k) :: UsedBlock(y1, s, k);
  }

  lemma NoLists(next: Links, prev: Links, rings: seq<seq<Ref>>, y: Layout, want: nat)
    requires Good(y) && RingsOk(next, prev, rings, y) && want < y.top
    requires forall i | want <= i < y.top :: |rings[i]| == 1
    ensures forall b :: !FreeRun(y, b, want)
  {
    RunIffBlock(y, want);
    forall s, j | want <= j
      ensures !FreeBlock(y, s, j)
    {
      if j < y.top { EmptyList(next, prev, rings, y, j, s); } else if s in y.blocks { assert BlockOk(y, s); }
    }
  }

  lemma EmptyList(next: Links, prev: Links, rings: seq<seq<Ref>>, y: Layout, j: nat, s: int)
    requires RingsOk(next, prev, rings, y) && j < y.top && |rings[j]| == 1
    ensures !FreeBlock(y, s, j)
  {
    assert RingOk(next, prev, rings[j], j, y);
    assert rings[j] == [Head(j)];
  }

  lemma ListCount(next: Links, prev: Links, rings: seq<seq<Ref>>, y: Layout)
    requires RingsOk(next, prev, rings, y)
    ensures |rings| == y.top
  {
  }

  // ------------------------------------------------------------ steps of free

  lemma TagAt(ord: map<int, nat>, tag: map<int, Tag>, y: Layout, s: int, except: set<int>)
    requires TagsOk(ord, tag, y, except) && s in y.blocks && s !in except
    ensures TagOk(ord, tag, y, s)
  {
  }

  lemma TagsExcept(ord: map<int, nat>, tag: map<int, Tag>, y: Layout, s: int)
    requires TagsOk(ord, tag, y, {})
    ensures TagsOk(ord, tag, y, {s})
  {
  }

  lemma UsedBelowTop(y: Layout, s: int)
    requires Good(y) && s in y.blocks
    ensures y.blocks[s] < y.top
  {
    assert BlockOk(y, s);
  }

  lemma MergeFree(y: Layout, b: int)
    requires Good(y) && b in y.blocks && b !in y.free && FreeBlock(y, BuddyOf(b, y.blocks[b]), y.blocks[b])
    ensures forall s, j :: FreeBlock(Merge(y, b), s, j) <==> FreeBlock(y, s, j) && s != BuddyOf(b, y.blocks[b])
    ensures y.blocks[b] < y.top
  {
    assert BlockOk(y, b);
  }

  lemma MergeUsed(y: Layout, b: int)
    requires Good(y) && b in y.blocks && b !in y.free && FreeBlock(y, BuddyOf(b, y.blocks[b]), y.blocks[b])
    ensures var c := BuddyOf(b, y.blocks[b]); var m := if c < b then c else b;
            && UsedBlock(Merge(y, b), m, y.blocks[b] + 1)
            && forall s, j | UsedBlock(y, s, j) && s != b :: s != m && UsedBlock(Merge(y, b), s, j)
  {
    hide BuddyOf, Good;
  }

  lemma MergeTags(ord: map<int, nat>, tag: map<int, Tag>, y: Layout, b: int)
    requires b in y.blocks && b !in y.free && FreeBlock(y, BuddyOf(b, y.blocks[b]), y.blocks[b])
    requires TagsOk(ord, tag, y, {b})
    ensures var c := BuddyOf(b, y.blocks[b]); TagsOk(ord, tag, Merge(y, b), {if c < b then c else b})
  {
    hide BuddyOf;
    var c, z := BuddyOf(b, y.blocks[b]), Merge(y, b);
    forall s | s in z.blocks && s != (if c < b then c else b)
      ensures TagOk(ord, tag, z, s)
    {
      assert TagOk(ord, tag, y, s);
    }
  }

  /** When the loop stops below the top order, the buddy is not a free block of the same order. */
  lemma NotAbsorbed(ord: map<int, nat>, tag: map<int, Tag>, y: Layout, b: int, except: set<int>)
    requires Good(y) && b in y.blocks && TagsOk(ord, tag, y, except) && except == {b}
    requires var c := BuddyOf(b, y.blocks[b]);
             c < y.lo || c >= y.hi
             || (c in tag && c in ord && (tag[c] == Used || ord[c] != y.blocks[b]))
    ensures !FreeBlock(y, BuddyOf(b, y.blocks[b]), y.blocks[b])
  {
    var c := BuddyOf(b, y.blocks[b]);
    if c in y.blocks {
      assert BlockOk(y, c);
      BuddyApart(b, y.blocks[b]);
      assert TagOk(ord, tag, y, c);
    }
  }

  lemma PutFacts(ord: map<int, nat>, tag: map<int, Tag>, y: Layout, b: int)
    requires Good(y) && b in y.blocks && b !in y.free && TagsOk(ord, tag, y, {b})
    ensures forall s, j :: FreeBlock(Put(y, b), s, j) <==> FreeBlock(y, s, j) || (s == b && j == y.blocks[b])
    ensures TagsOk(ord[b := y.blocks[b]], tag[b := Free], Put(y, b), {})
    ensures forall p | y.lo <= p < y.hi :: FreePage(Put(y, b), p) <==> FreePage(y, p) || Covers(b, y.blocks[b], p)
    ensures forall s, j | UsedBlock(y, s, j) && s != b :: UsedBlock(Put(y, b), s, j)
  {
    var z := Put(y, b);
    forall s | s in z.blocks
      ensures TagOk(ord[b := y.blocks[b]], tag[b := Free], z, s)
    {
      if s != b { assert TagOk(ord, tag, y, s); }
    }
    assert BlockOk(y, b);
    forall p | y.lo <= p < y.hi
      ensures FreePage(z, p) <==> FreePage(y, p) || Covers(b, y.blocks[b], p)
    {
      StartOf(y, p);
    }
  }
}
