/**
 The capability mapping database: nodes in per-space trees and in derivation lists, and the operations
 on it: `insert_root`, `delegate`, and `revoke`, which demotes forwards and unlinks backwards.
 */
module MappingDb {
  import opened Options
  import opened Radix
  import opened Bits
  import opened Rings
  import opened Derivation
  import opened MappingModel
  import opened MappingSlots

  class Mdb {
    var info: Infos
    var next: Links
    var prev: Links
    var kin: Kin
    var attr: Attrs
    var tree: set<Node>
    var slots: Slots
    var limit: nat  // nodes from here on are unused
    ghost var rings: Lists
    ghost var home: Homes

    ghost predicate Valid()
      reads this
    {
      && Forest(next, prev, kin, attr, rings, home, tree) && Ranges(info, tree) && SlotsOk(slots, info, attr, tree)
      && Rightful(attr, kin, tree) && KernelRoots(info, kin, tree) && Below(tree, limit)
    }

    constructor ()
      ensures Valid() && tree == {} && slots == map[]
    {
      info, next, prev, kin, attr := map[], map[], map[], Kin(map[], map[]), map[];
      tree, slots, limit, rings, home := {}, map[], 0, [], map[];
    }

    /** `S::update`: show `c` in every slot of the node. The kernel has no slots, and the assertion keeps it out. */
    method Show(f: Info, c: Cell)
      requires AlignedInfo(f) && !Kernel(f.space)
      modifies this`slots
      ensures Shown(old(slots), slots, f, Pow2(f.order), c)
    {
      if f.space.Objects? {
        ShownObject(slots, f, c);
        slots := slots[(f.space, Host, f.base) := c];
        return;
      }
      for i := 0 to Pow2(f.order)
        invariant Shown(old(slots), slots, f, i, c)
      {
        ghost var was := slots;
        if Host in f.sub {
          slots := slots[(f.space, Host, f.base + i) := c];
        }
        if Guest in f.sub {
          slots := slots[(f.space, Guest, f.base + i) := c];
        }
        ShownStep(old(slots), was, slots, f, i, c);
      }
    }

    /** `update` and `demote_node` on one node. */
    method StripOne(n: Node, mask: Rights)
      requires Ranges(info, tree) && SlotsOk(slots, info, attr, tree) && n in tree && n in attr
      requires n in info && !Kernel(info[n].space)
      modifies this`attr, this`slots
      ensures attr == old(attr)[n := old(attr)[n] - mask]
      ensures SlotsOk(slots, info, attr, tree)
      ensures Wrote(old(slots), slots, info[n],
                    if old(attr)[n] - mask == {} then Null
                    else if info[n].space.Objects? then Cap(info[n].phys, old(attr)[n] - mask) else Open)
    {
      hide SlotsOk, Ranges, Wrote, Shown, Pow2, CapOf, AlignedInfo;
      RangeAt(info, tree, n);
      Show(info[n], CapOf(info[n], attr[n] - mask));
      WroteFrom(old(slots), slots, info[n], attr[n] - mask);
      attr := attr[n := attr[n] - mask];
      SlotsStep(old(slots), slots, info, old(attr), attr, tree, n);
    }

    /**
     The forward walk of `revoke`: strip `mask` from the picked nodes of `m`'s subtree,
     showing it in the slots as it goes. Returns the last node of the subtree.
     */
    method Demote(m: Node, mask: Rights, self: bool, lo: nat, o: nat) returns (last: Node, ghost j: nat)
      requires Valid() && m in tree && m in info && (self ==> !Kernel(info[m].space))
      modifies this`attr, this`slots
      ensures Stripped(old(attr), attr, Picks(kin, info, tree, self, m, lo, o), mask)
      ensures SlotsOk(slots, info, attr, tree)
      ensures SubtreeEnd(kin, rings[home[m]], m, j) && last == rings[home[m]][j]
    {
      hide Forest, Ranges, SlotsOk, Preorder, Picked, IsRing, Rightful, PhysMeets, Deeper, Stripped, Picks, SubtreeEnd,
           Sofar, KernelRoots, Below;
      ghost var i := HomeOf(next, prev, kin, attr, rings, home, tree, m);
      ghost var r := rings[home[m]];
      ghost var picks := Picks(kin, info, tree, self, m, lo, o);
      RingNodes(kin, attr, r, tree, i);
      var d := kin.dpth[m];
      last := m;
      j := i;
      var demote := false;
      ghost var done := {};
      StrippedNone(attr, mask);
      SofarNone(r, i, picks);
      while true
        invariant i <= j < |r| && last == r[j] && Deeper(kin, r, i, j)
        invariant demote == (j > i && Picked(kin, info, self, m, lo, o, r[j - 1]))
        invariant self && j > i ==> demote == PhysMeets(info, lo, o, m)
        invariant Stripped(old(attr), attr, done, mask)
        invariant Sofar(r, i, j, picks, done)
        invariant SlotsOk(slots, info, attr, tree)
        decreases |r| - j
      {
        RingNodes(kin, old(attr), r, tree, j);
        if kin.dpth[last] == d + (if self then 0 else 1) {
          demote := PhysMeets(info, lo, o, last);
        }
        DemoteFlag(kin, old(attr), r, info, self, lo, o, i, j);
        assert demote == Picked(kin, info, self, m, lo, o, last);
        StrippedAt(old(attr), attr, done, mask, last);
        if demote && attr[last] * mask != {} {
          ghost var was := attr;
          PickedNotKernel(kin, old(attr), r, info, tree, self, m, lo, o, j);
          StripOne(last, mask);
          StrippedMore(old(attr), was, attr, done, mask, last);
        } else {
          StrippedSame(old(attr), attr, done, demote, mask, last);
        }
        PicksAt(kin, info, tree, self, m, lo, o, last);
        SofarStep(r, i, j, picks, done);
        done := if demote then done + {last} else done;
        Neighbours(next, prev, r, j);
        var ptr := next[last];
        RingNodes(kin, old(attr), r, tree, After(j, |r|));
        if kin.dpth[ptr] <= d {
          break;
        }
        WalkOn(kin, old(attr), r, i, j);
        last, j := ptr, j + 1;
      }
      WalkEnds(next, prev, kin, old(attr), rings, home, tree, info, self, m, lo, o, i, j, done);
    }

    /** `remove_node` and `tree_remove`: unlink a node that has neither rights nor children. */
    method RemoveNode(n: Node, ghost k: nat) returns (ok: bool)
      requires Forest(next, prev, kin, attr, rings, home, tree) && Ranges(info, tree)
      requires SlotsOk(slots, info, attr, tree)
      requires n in tree && k < |rings[home[n]]| && rings[home[n]][k] == n
      modifies this`next, this`prev, this`tree, this`rings
      ensures Forest(next, prev, kin, attr, rings, home, tree) && Ranges(info, tree) && SlotsOk(slots, info, attr, tree)
      ensures n in attr
      ensures ok == (attr[n] == {}
                     && (k + 1 < |old(rings)[home[n]]| ==> Depth(kin, old(rings)[home[n]][k + 1]) <= Depth(kin, n)))
      ensures if ok then tree == old(tree) - {n} && rings == old(rings)[home[n] := Without(old(rings)[home[n]], k)]
              else tree == old(tree) && rings == old(rings)
      ensures prev.Keys == old(prev.Keys) && n in prev && prev[n] == old(prev)[n]
    {
      hide Preorder, IsRing, SlotsOk, Ranges, Forest;
      ghost var i := HomeOf(next, prev, kin, attr, rings, home, tree, n);
      ghost var r := rings[home[n]];
      RingNodes(kin, attr, r, tree, k);
      RingNodes(kin, attr, r, tree, After(k, |r|));
      Neighbours(next, prev, r, k);
      Neighbours(next, prev, r, After(k, |r|));
      if attr[n] != {} {
        return false;
      }
      Alive(next, prev, r, k);
      if !(next[prev[n]] == n && prev[next[n]] == n) {
        return false;
      }
      if kin.dpth[next[n]] > kin.dpth[n] {
        return false;
      }
      ForestWithout(next, prev, kin, attr, rings, home, tree, n, k);
      SlotsDrop(slots, info, attr, tree, n);
      RangesLess(info, tree, n);
      next, prev := next[prev[n] := next[n]], prev[next[n] := prev[n]];
      rings := rings[home[n] := Without(r, k)];
      tree := tree - {n};
      return true;
    }

    /** The backward walk of `revoke`: unlink every node of `m`'s subtree that has no rights left. */
    method Prune(m: Node, last: Node, ghost j0: nat, ghost bare: set<Node>)
      requires Forest(next, prev, kin, attr, rings, home, tree) && Ranges(info, tree)
      requires SlotsOk(slots, info, attr, tree)
      requires m in tree && BareBelow(kin, attr, tree, m, bare) && KernelRoots(info, kin, tree) && Below(tree, limit)
      requires SubtreeEnd(kin, rings[home[m]], m, j0) && last == rings[home[m]][j0]
      modifies this`next, this`prev, this`tree, this`rings
      ensures Valid() && tree <= old(tree)
      ensures forall n | n in old(tree) :: n in attr && (n in tree <==> attr[n] != {} || (n in bare && n != m))
    {
      hide Preorder, IsRing, SlotsOk, Ranges, Forest, Tail, BareBelow, SubtreeEnd, RightsFrom, Rightful, Derived;
      ghost var r := HomeRing(next, prev, kin, attr, rings, home, tree, m);
      ghost var i := TailStart(kin, attr, r, tree, m, j0, bare);
      BareRoots(kin, attr, tree, m, bare);
      var node := last;
      ghost var j := j0;
      var d := kin.dpth[m];
      while true
        invariant Forest(next, prev, kin, attr, rings, home, tree) && Ranges(info, tree)
        invariant SlotsOk(slots, info, attr, tree)
        invariant home[m] < |rings| && i <= j < |rings[home[m]]| && node == rings[home[m]][j]
        invariant Tail(kin, attr, rings[home[m]], m, i, j)
        invariant m in tree && tree <= old(tree)
        invariant forall n | n in old(tree) && n !in tree :: n in attr && attr[n] == {} && (n in bare ==> n == m)
        decreases j
      {
        HomeIs(next, prev, kin, attr, rings, home, tree, home[m], j);
        r := HomeRing(next, prev, kin, attr, rings, home, tree, node);
        RingNodes(kin, attr, r, tree, j);
        Neighbours(next, prev, r, j);
        TailAt(kin, attr, r, m, i, j);
        NotBare(kin, attr, r, m, i, j);
        var ok := RemoveNode(node, j);
        TailStep(kin, attr, r, m, i, j, ok);
        WithoutFacts(r, j);
        var ptr := prev[node];
        if kin.dpth[node] <= d {
          break;
        }
        node, j := ptr, j - 1;
      }
      assert node == m;
      BareLess(kin, attr, old(tree), tree, m, bare);
      TailEnd(next, prev, kin, attr, rings, home, tree, m, i, bare);
      RightfulAt(attr, kin, tree);
    }

    /** One round of `revoke`, for one node the window meets. */
    method RevokeBelow(m: Node, mask: Rights, self: bool, lo: nat, o: nat)
      requires Valid() && m in tree && m in info && (self ==> !Kernel(info[m].space))
      modifies this`next, this`prev, this`tree, this`rings, this`attr, this`slots
      ensures Valid() && Stripped(old(attr), attr, Picks(kin, info, old(tree), self, m, lo, o), mask)
      ensures tree <= old(tree)
      ensures forall n | n in old(tree) :: n in old(attr) && n in attr
      ensures forall n | n in old(tree) :: n in tree <==> attr[n] != {} || (old(attr)[n] == {} && n != m)
    {
      hide Forest, Ranges, SlotsOk, Preorder, IsRing, Picked, Stripped, Closed, Derived, BareBelow, KernelRoots;
      RightfulAt(attr, kin, tree);
      ghost var r := HomeRing(next, prev, kin, attr, rings, home, tree, m);
      var last, j := Demote(m, mask, self, lo, o);
      PicksClosed(kin, info, tree, self, m, lo, o);
      StripForest(next, prev, kin, old(attr), attr, rings, home, tree, Picks(kin, info, tree, self, m, lo, o), mask);
      StripBare(next, prev, kin, old(attr), attr, rings, home, tree, info, self, m, lo, o, mask);
      r := HomeRing(next, prev, kin, attr, rings, home, tree, m);
      Asserted(kin, attr, next, prev, r, m, j);
      assert kin.dpth[next[last]] <= kin.dpth[m];
      assert kin.dpth[next[last]] <= kin.dpth[last];
      Prune(m, last, j, Bare(old(attr), tree));
    }

    /** `tree_lookup(addr, true)`: the node that holds the index, else the first one above. */
    method TreeLookup(s: Space, addr: nat) returns (found: Option<Node>)
      requires Ranges(info, tree)
      ensures IsLookup(info, tree, s, addr, found)
    {
      found := None;
      var rest := tree;
      while rest != {}
        invariant rest <= tree && IsLookup(info, tree - rest, s, addr, found)
        decreases |rest|
      {
        var n :| n in rest;
        var better := info[n].space == s && addr < info[n].base + Pow2(info[n].order)
          && (found == None || info[n].base < info[found.value].base);
        LookupMore(info, tree, tree - rest, s, addr, found, n);
        if better {
          found := Some(n);
        }
        assert tree - rest + {n} == tree - (rest - {n});
        rest := rest - {n};
      }
      assert tree - rest == tree;
    }

    /** A new root, unless its range is taken. */
    method AddRoot(f: Info, a: Rights) returns (ok: bool)
      requires Valid() && AlignedInfo(f)
      modifies this
      ensures Valid()
      ensures ok == !Clash(old(info), old(tree), f)
      ensures !ok ==>
                tree == old(tree) && info == old(info) && attr == old(attr) && slots == old(slots)
                && kin == old(kin)
      ensures ok ==>
                && old(limit) !in old(tree) && tree == old(tree) + {old(limit)}
                && info == old(info)[old(limit) := f]
                && attr == old(attr)[old(limit) := a] && kin == RootKin(old(kin), old(limit))
                && Wrote(old(slots), slots, f,
                         if a == {} then Null else if f.space.Objects? then Cap(f.phys, a) else Open)
                && (Kernel(f.space) ==> slots == old(slots))
    {
      hide Forest, Ranges, SlotsOk, Meets, Clash, Rightful, Below, Shown, Pow2, CapOf, AlignedInfo, KernelRoots,
           Kernel, RootKin, Wrote;
      if Clash(info, tree, f) {
        return false;
      }
      var x := limit;
      if Kernel(f.space) {
        ShownNowhere(slots, f, CapOf(f, a));
      } else {
        Show(f, CapOf(f, a));
      }
      WroteFrom(old(slots), slots, f, a);
      Unused(tree, limit);
      RootForest(next, prev, kin, attr, rings, home, tree, x, a);
      RootMore(old(slots), slots, info, attr, kin, tree, x, f, a);
      info, attr, limit := info[x := f], attr[x := a], x + 1;
      next, prev, kin := next[x := x], prev[x := x], RootKin(kin, x);
      rings, home := rings + [[x]], home[x := |rings|];
      tree := tree + {x};
      return true;
    }

    /** `insert_root`: a new object at one index, unless the index is taken. */
    method InsertRoot(pd: nat, obj: nat, base: nat, a: Rights) returns (ok: bool)
      requires Valid()
      modifies this
      ensures Valid()
      ensures ok == !Clash(old(info), old(tree), Info(Objects(pd), obj, base, 0, {}))
      ensures !ok ==>
                tree == old(tree) && info == old(info) && attr == old(attr) && slots == old(slots)
                && kin == old(kin)
      ensures ok ==> && old(limit) !in old(tree) && tree == old(tree) + {old(limit)}
                     && info == old(info)[old(limit) := Info(Objects(pd), obj, base, 0, {})]
                     && attr == old(attr)[old(limit) := a] && kin == RootKin(old(kin), old(limit))
      ensures ok && pd != 0 ==> SlotAt(slots, Objects(pd), Host, base) == if a == {} then Null else Cap(obj, a)
      ensures forall s: Space, t: Table, i: nat | pd == 0 || s != Objects(pd) || t != Host || i != base ::
                SlotAt(slots, s, t, i) == SlotAt(old(slots), s, t, i)
    {
      hide Forest, Ranges, SlotsOk, Meets, Clash, Rightful, Below, KernelRoots, AlignedInfo, Wrote;
      var f := Info(Objects(pd), obj, base, 0, {});
      SingleAligned(f);
      ok := AddRoot(f, a);
      if ok { OneCell(old(slots), slots, f, if a == {} then Null else Cap(obj, a)); }
    }

    /** `addreg`: the kernel's roots for a range of ports, in the largest blocks that fit. */
    method AddReg(addr: nat, size: nat, a: Rights)
      requires Valid()
      modifies this
      ensures Valid() && Grown(old(info), info, old(attr), attr, old(kin), kin, old(tree), tree)
      ensures forall n | n in tree && n !in old(tree) :: IsRegion(info, attr, kin, n, addr, addr + size, a)
      ensures FreeRange(old(info), old(tree), Ports(0), addr, addr + size) ==>
                CoveredRange(info, old(tree), tree, Ports(0), addr, addr + size)
      ensures slots == old(slots)
    {
      hide Forest, Ranges, SlotsOk, Meets, Clash, Rightful, Below, KernelRoots, AlignedInfo, Grown, IsRegion,
           FreeRange, CoveredRange, MaxOrder, Pow2, Wrote;
      var cur, rest := addr, size;
      ghost var free := FreeRange(info, tree, Ports(0), addr, addr + size);
      RegionStart(info, attr, kin, tree, addr, a);
      while rest > 0
        invariant cur + rest == addr + size && addr <= cur && 0 <= rest && Valid() && slots == old(slots)
        invariant Grown(old(info), info, old(attr), attr, old(kin), kin, old(tree), tree)
        invariant forall n | n in tree && n !in old(tree) :: IsRegion(info, attr, kin, n, addr, cur, a)
        invariant free ==> FreeRange(info, tree, Ports(0), cur, addr + size)
        invariant free ==> CoveredRange(info, old(tree), tree, Ports(0), addr, cur)
        decreases rest
      {
        var o := MaxOrder(cur, rest);
        BlockFits(cur, rest);
        var f := Info(Ports(0), cur, cur, o, {});
        PortAligned(f);
        ghost var info1, attr1, kin1, tree1, x := info, attr, kin, tree, limit;
        if free { FreeNoClash(info, tree, f, addr + size); }
        var ok := AddRoot(f, a);
        RegionStep(old(info), info1, info, old(attr), attr1, attr, old(kin), kin1, kin, old(tree), tree1, tree, addr, f,
                   a, x, ok);
        if free { RegionCovered(info1, info, old(tree), tree1, tree, addr, addr + size, f, x); }
        rest, cur := rest - Pow2(o), cur + Pow2(o);
      }
    }

    /** The body of the loop of `delegate`: a new node below `m`, unless its range is taken or no rights remain. */
    method InsertChild(f: Info, m: Node, a: Rights) returns (ok: bool)
      requires Valid() && m in tree && AlignedInfo(f) && !Kernel(f.space)
      modifies this
      ensures Valid()
      ensures ok == (!Clash(old(info), old(tree), f) && m in old(attr) && old(attr)[m] * a != {})
      ensures !ok ==>
                tree == old(tree) && info == old(info) && attr == old(attr) && slots == old(slots)
                && kin == old(kin)
      ensures ok ==>
                && old(limit) !in old(tree) && tree == old(tree) + {old(limit)}
                && info == old(info)[old(limit) := f]
                && attr == old(attr)[old(limit) := old(attr)[m] * a] && kin == Adopt(old(kin), m, old(limit))
                && Wrote(old(slots), slots, f, if f.space.Objects? then Cap(f.phys, old(attr)[m] * a) else Open)
    {
      hide Forest, Ranges, SlotsOk, Meets, Clash, Rightful, Below, Shown, IsRing, Preorder, AlignedInfo, Pow2, CapOf,
           With, KernelRoots, Kernel, Adopt, Wrote;
      var x := limit;
      RightfulAt(attr, kin, tree);
      if Clash(info, tree, f) {
        return false;
      }
      tree := tree + {x};
      if attr[m] * a == {} {
        Unused(old(tree), limit);
        tree := tree - {x};
        assert tree == old(tree);
        return false;
      }
      Unused(old(tree), limit);
      ghost var i := HomeOf(next, prev, kin, attr, rings, home, old(tree), m);
      ChildForest(next, prev, kin, attr, rings, home, old(tree), m, i, x, attr[m] * a);
      RangesMore(info, old(tree), x, f);
      AdoptKin(kin, m, x, old(tree));
      RightfulMore(attr, kin, Adopt(kin, m, x), old(tree), x, attr[m] * a);
      KernelMore(info, kin, Adopt(kin, m, x), old(tree), x, f);
      Show(f, CapOf(f, attr[m] * a));
      WroteFrom(old(slots), slots, f, attr[m] * a);
      SlotsMore(old(slots), slots, info, attr, old(tree), x, f, attr[m] * a);
      info, attr, limit := info[x := f], attr[x := attr[m] * a], x + 1;
      Alive(next, prev, rings[home[m]], i);
      next, prev := next[x := next[m]][m := x], prev[x := m][next[m] := x];
      AdoptIs(kin, m, x);
      kin := Kin(kin.dpth[x := kin.dpth[m] + 1], kin.prnt[x := m]);
      rings, home := rings[home[m] := With(rings[home[m]], i + 1, x)], home[x := home[m]];
      return true;
    }

    /**
     `Pd::delegate`: below every node of the sender's window that shares rights with `a` goes a copy of its part of the
     window, at the same offset in the receiver's window, unless that range is taken there; nothing else changes.
     */
    method Delegate(snd: Space, rcv: Space, sbase: nat, rbase: nat, ord: nat, a: Rights, sub: set<Table>)
      requires Valid() && SameKind(snd, rcv) && !Kernel(rcv)
      requires AlignedWindow(Window(rcv, sbase, rbase, ord, a, sub))
      requires LandsOutside(snd, Window(rcv, sbase, rbase, ord, a, sub))
      modifies this
      ensures Valid() && Grown(old(info), info, old(attr), attr, old(kin), kin, old(tree), tree)
      ensures forall n | n in tree && n !in old(tree) ::
                exists m :: m in Hits(old(info), old(tree), snd, sbase, ord)
                         && IsCopy(info, attr, kin, m, n, Window(rcv, sbase, rbase, ord, a, sub))
      ensures forall m | m in Hits(old(info), old(tree), snd, sbase, ord) ::
                !Refused(old(info), old(attr), old(tree), m, Window(rcv, sbase, rbase, ord, a, sub)) <==>
                exists n :: n in tree && n !in old(tree)
                  && IsCopy(info, attr, kin, m, n, Window(rcv, sbase, rbase, ord, a, sub))
      ensures DelegatedCells(old(slots), slots, old(info), old(attr), old(tree), snd,
                             Window(rcv, sbase, rbase, ord, a, sub))
    {
      hide Forest, Ranges, SlotsOk, Below, Meets, Common, Rightful, Pow2, IsLookup, Hits, Clash, AlignedInfo,
           SeenBelow, Copied, Grown, IsCopy, Refused, AlignedWindow, LandsOutside, Image, KernelRoots, EndsBehind,
           DelegatedCells;
      var w := Window(rcv, sbase, rbase, ord, a, sub);
      ghost var hits := Hits(info, tree, snd, sbase, ord);
      ghost var seen := {};
      var addr := sbase;
      DelegateStart(info, attr, kin, tree, snd, w);
      while true
        invariant Valid() && sbase <= addr
        invariant Copied(old(info), info, old(attr), attr, old(kin), kin, old(tree), tree, snd, seen, w)
        invariant Hits(info, old(tree), snd, sbase, ord) == hits && SeenBelow(info, tree, hits, seen, addr)
        decreases hits - seen
      {
        var found := TreeLookup(snd, addr);
        if found == None {
          LookupNone(info, old(tree), tree, snd, sbase, ord, addr, seen);
          break;
        }
        var m := found.value;
        LookupFound(info, tree, snd, addr, m);
        if !Meets(info[m].base, info[m].order, sbase, ord) {
          LookupApart(info, old(tree), tree, snd, sbase, ord, addr, seen, m);
          break;
        }
        HitIsOld(old(info), info, old(attr), attr, old(kin), kin, old(tree), tree, snd, seen, w, m);
        RoundHit(info, old(tree), tree, snd, sbase, ord, addr, seen, m);
        HitEnds(info, old(tree), snd, sbase, ord, m);
        ImageAligned(info, tree, m, w);
        ImageSpace(info[m], w);
        ghost var info1, attr1, kin1, tree1, x := info, attr, kin, tree, limit;
        var f := Image(info[m], w);
        var ok := InsertChild(f, m, a);
        GrownIn(old(info), info1, old(attr), attr1, old(kin), kin1, old(tree), tree1, snd, seen, w);
        CopiedStep(old(info), info1, info, old(attr), attr1, attr, old(kin), kin1, kin, old(tree), tree1, tree, snd,
                   seen, w, m, x, ok);
        addr := info[m].base + Pow2(info[m].order);
        SeenMore(info1, info, old(tree), tree1, tree, snd, sbase, ord, seen + {m}, addr);
        seen := seen + {m};
      }
      DelegateEnd(old(info), info, old(attr), attr, old(kin), kin, old(tree), tree, snd, seen, w);
      DelegateCells(old(slots), slots, old(info), info, old(attr), attr, old(kin), kin, old(tree), tree, snd, w);
    }

    /**
     `Pd::revoke`: `mask` goes from exactly the selected nodes, the nodes left without rights
     go from the lists and trees, and the slots follow.
     */
    method Revoke(s: Space, base: nat, ord: nat, mask: Rights, self: bool)
      requires Valid() && (self ==> !Kernel(s))
      modifies this`next, this`prev, this`tree, this`rings, this`attr, this`slots
      ensures Valid()
      ensures Stripped(old(attr), attr,
                       Selected(kin, info, old(tree), Hits(info, old(tree), s, base, ord), base, ord, self), mask)
      ensures tree <= old(tree) && forall n | n in old(tree) :: n in old(attr) && n in attr
      ensures forall n | n in old(tree) ::
                n in tree <==> attr[n] != {} || (old(attr)[n] == {} && n !in Hits(info, old(tree), s, base, ord))
      ensures RevokedCells(old(slots), slots, info, old(attr), old(tree),
                           Selected(kin, info, old(tree), Hits(info, old(tree), s, base, ord), base, ord, self), mask)
    {
      hide Forest, Ranges, SlotsOk, Below, Meets, Common, Preorder, IsRing, Picked, Stripped, Closed, Derived,
           Selected, Rightful, Pow2, PhysMeets, Swept, IsLookup, Hits, KernelRoots, RevokedCells;
      ghost var hits := Hits(info, tree, s, base, ord);
      ghost var seen := {};
      RevokeStart(kin, info, attr, tree, s, base, ord, self, mask);
      var addr := base;
      while true
        invariant Valid() && base <= addr && tree <= old(tree)
        invariant Swept(kin, info, old(attr), attr, old(tree), tree, seen, base, ord, self, mask)
        invariant SeenBelow(info, tree, hits, seen, addr)
        decreases hits - seen
      {
        var found := TreeLookup(s, addr);
        if found == None {
          LookupNone(info, old(tree), tree, s, base, ord, addr, seen);
          break;
        }
        var m := found.value;
        LookupFound(info, tree, s, addr, m);
        if !Meets(info[m].base, info[m].order, base, ord) {
          LookupApart(info, old(tree), tree, s, base, ord, addr, seen, m);
          break;
        }
        RoundHit(info, old(tree), tree, s, base, ord, addr, seen, m);
        var b, o := Common(info[m].base, info[m].order, base, ord).0, Common(info[m].base, info[m].order, base, ord).1;
        ghost var attr1, tree1 := attr, tree;
        RevokeBelow(m, mask, self, b - info[m].base + info[m].phys, o);
        SweptStep(kin, info, old(attr), attr1, attr, old(tree), tree1, tree, seen, base, ord, self, mask, m);
        seen := seen + {m};
        addr := info[m].base + Pow2(info[m].order);
      }
      SweptEnd(kin, info, old(attr), attr, old(tree), tree, old(next), old(prev), old(rings), home, s, base, ord, self,
               mask, seen);
      RevokeCells(old(slots), slots, info, old(attr), attr, old(tree), tree,
                  Selected(kin, info, old(tree), hits, base, ord, self), mask);
    }
  }
}
