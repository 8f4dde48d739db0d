/** The per-space AVL tree of ranges: lookup, insert and remove on linked nodes. */
module AvlTrees {
  import opened Options
  import opened Radix
  import opened Bits
  import opened Rings
  import opened Derivation
  import opened MappingModel
  import opened AvlModel
  import opened AvlHeap
  import opened AvlRemoval
  import opened AvlCutting

  /** `equal`: the ranges of two nodes meet. */
  predicate Equal(keys: Keys, x: Node, n: Node)
    requires x in keys && n in keys
  {
    Meets(keys[x].base, keys[x].order, keys[n].base, keys[n].order)
  }

  /** The nodes are known, of one space, aligned and apart. */
  ghost predicate OneSpace(keys: Keys, space: Space, s: set<Node>) {
    Ranges(keys, s) && forall n | n in s :: n in keys && keys[n].space == space
  }

  class AvlTree {
    const keys: Keys
    const space: Space
    var mem: Heap
    ghost var t: Tree

    ghost predicate Valid()
      reads this
    {
      Rep(mem, mem.root, t) && Balanced(t) && Ascending(keys, Inorder(t)) && OneSpace(keys, space, Nodes(t))
    }

    constructor (keys: Keys, space: Space)
      ensures Valid() && t == Nil && this.keys == keys && this.space == space && mem == Heap(None, map[], map[])
    {
      this.keys, this.space, mem, t := keys, space, Heap(None, map[], map[]), Nil;
    }

    /** `Mdb::lookup`: the node that holds the index; else, if asked for, the first one above. */
    method Lookup(addr: nat, next: bool) returns (found: Option<Node>)
      requires Valid()
      ensures next ==> IsLookup(keys, Nodes(t), space, addr, found)
      ensures !next ==> match found
                        case None => forall n | n in Nodes(t) :: !InRange(keys[n].base, keys[n].order, addr)
                        case Some(m) => m in Nodes(t) && InRange(keys[m].base, keys[m].order, addr)
    {
      hide Meets, Pow2, Xor, Balanced, Ascending, Ranges, AlignedInfo, Nodes;
      found := None;
      var m := mem.root;
      ghost var u, best := t, None;
      while m != None
        invariant Rep(mem, m, u) && Ascending(keys, Inorder(u)) && Nodes(u) <= Nodes(t)
        invariant found == if next then best else None
        invariant Narrowed(keys, Nodes(t), Nodes(u), addr, best)
        decreases u
      {
        var n := m.value;
        NodesKids(keys, u);
        InNode(keys, Nodes(t), n, addr);
        if Xor(keys[n].base, addr) / Pow2(keys[n].order) == 0 {
          LookupHit(keys, Nodes(t), space, n, addr);
          return Some(n);
        }
        var d := addr > keys[n].base;
        LookupStep(keys, Nodes(t), space, u, addr, best);
        if !d {
          if next {
            found := Some(n);
          }
          best := Some(n);
        }
        m, u := Get(mem, Link(n, d)), Kid(u, d);
      }
      LookupMiss(keys, Nodes(t), space, u, addr, best);
    }

    /** The single rotation at `p` lifts side `d`. Returns the outer subtree of the lifted node. */
    method Rotate(p: Loc, d: bool, ghost s: Tree) returns (r: Option<Node>)
      requires s.Bin? && Kid(s, d).Bin? && Rep(mem, Get(mem, p), s) && Distinct(s) && Off(p, s)
      modifies this`mem
      ensures var y := Kid(s, d);
              Rep(mem, Get(mem, p), Single(s.node, y.node, Even, Even, d, Kid(y, d), Kid(y, !d), Kid(s, !d)))
      ensures OnlyIn(old(mem), mem, p, Nodes(s)) && r == Get(mem, Link(Kid(s, d).node, d))
      ensures mem == RotateHeap(old(mem), p, s.node, Kid(s, d).node, d)
    {
      hide Rep, Distinct, Nodes, Make, OnlyIn;
      RepKids(mem, Get(mem, p), s, d);
      RepKids(mem, Get(mem, Link(s.node, d)), Kid(s, d), d);
      var node := Get(mem, p).value;
      var tree := Get(mem, Link(node, d)).value;
      mem := Set(mem, p, Some(tree));
      mem := Set(mem, Link(node, d), Get(mem, Link(tree, !d)));
      mem := Set(mem, Link(tree, !d), Some(node));
      mem := SetBal(SetBal(mem, tree, Even), node, Even);
      RotateRep(old(mem), mem, p, s, d);
      r := Get(mem, Link(tree, d));
    }

    /** The double rotation at `p` lifts the inner grandchild on side `d`. Returns the subtree on its side `b`. */
    method Rotate2(p: Loc, d: bool, b: Bal, ghost s: Tree) returns (r: Option<Node>)
      requires s.Bin? && Kid(s, d).Bin? && Kid(Kid(s, d), !d).Bin? && Rep(mem, Get(mem, p), s) && Distinct(s)
      requires Off(p, s)
      modifies this`mem
      ensures var y := Kid(s, d);
              var z := Kid(y, !d);
              && Rep(mem, Get(mem, p),
                     Double(s.node, y.node, z.node, UpperBal(d, b), LowerBal(d, b), d, Kid(y, d), Kid(z, d), Kid(z, !d),
                            Kid(s, !d)))
              && (b == Even ==> r == None) && (b == Lean(d) ==> r == Get(mem, Link(y.node, !d)))
              && (b == Lean(!d) ==> r == Get(mem, Link(s.node, d)))
      ensures OnlyIn(old(mem), mem, p, Nodes(s))
      ensures mem == Rotate2Heap(old(mem), p, s.node, Kid(s, d).node, Kid(Kid(s, d), !d).node, d, b)
    {
      hide Rep, Distinct, Nodes, Make, OnlyIn, UpperBal, LowerBal;
      RepKids(mem, Get(mem, p), s, d);
      RepKids(mem, Get(mem, Link(s.node, d)), Kid(s, d), d);
      RepKids(mem, Get(mem, Link(Kid(s, d).node, !d)), Kid(Kid(s, d), !d), d);
      var node0 := Get(mem, p).value;
      var node1 := Get(mem, Link(node0, d)).value;
      var tree := Get(mem, Link(node1, !d)).value;
      mem := Set(mem, p, Some(tree));
      mem := Set(mem, Link(node0, d), Get(mem, Link(tree, !d)));
      mem := Set(mem, Link(node1, !d), Get(mem, Link(tree, d)));
      mem := Set(mem, Link(tree, d), Some(node1));
      mem := Set(mem, Link(tree, !d), Some(node0));
      mem := SetBal(SetBal(SetBal(mem, node1, Even), node0, Even), tree, Even);
      if b == Even {
        Rotate2Rep(old(mem), mem, p, s, d, b);
        return None;
      }
      mem := SetBal(mem, if b.d != d then node1 else node0, Lean(!b.d));
      Rotate2Rep(old(mem), mem, p, s, d, b);
      return Get(mem, Link(if b.d == d then node1 else node0, !b.d));
    }

    /** The last loop of `insert`: on the way down to `x`, every node leans towards it. */
    method LeanDown(start: Option<Node>, x: Node, ghost v: Tree)
      requires Rep(mem, start, v) && Distinct(v) && x in keys
      requires forall n | n in Nodes(v) :: n in keys && (Equal(keys, x, n) <==> n == x)
      modifies this`mem
      ensures Rep(mem, start, LeanTo(keys, v, x)) && BalsIn(old(mem), mem, Nodes(v))
    {
      hide Distinct, Meets;
      var n := start;
      ghost var u := v;
      while n != None && !Equal(keys, x, n.value)
        invariant Rep(mem, n, u) && Distinct(u) && Nodes(u) <= Nodes(v)
        invariant LeanHeap(keys, mem, u, x) == LeanHeap(keys, old(mem), v, x)
        decreases u
      {
        var d := Side(keys, x, n.value);
        DistinctKids(u, d);
        ghost var was := mem;
        mem := SetBal(mem, n.value, Lean(d));
        WrittenBal(was, n.value, Lean(d));
        BalsFrame(was, mem, {u.node}, Get(was, Link(u.node, d)), Kid(u, d));
        n, u := Get(mem, Link(n.value, d)), Kid(u, d);
      }
      LeanRep(keys, old(mem), start, v, x);
    }

    /** The second half of `insert`: rebalance the subtree at `p`, which holds the new leaf. */
    method Rebalance(p: Loc, x: Node, ghost s0: Tree, ghost s: Tree)
      requires s == Put(keys, s0, x) && Balanced(s0) && Rep(mem, Get(mem, p), s) && Distinct(s) && Off(p, s)
      requires x in keys
      requires forall n | n in Nodes(s) :: n in keys && (Equal(keys, x, n) <==> n == x)
      modifies this`mem
      ensures Rep(mem, Get(mem, p), Fix(keys, s, x)) && OnlyIn(old(mem), mem, p, Nodes(s))
    {
      hide Rep, Distinct, Nodes, Make, OnlyIn, UpperBal, LowerBal, LeanTo, Put, Get, BalOf, Balanced, Meets, Equal;
      PutShape(keys, s0, x);
      var n := Get(mem, p);
      RepKids(mem, n, s, true);
      var d1 := Side(keys, x, n.value);
      RepKids(mem, n, s, d1);
      DistinctKids(s, d1);
      ghost var y := Kid(s, d1);
      if BalOf(mem, n.value) == Even {
        LeanDown(n, x, s);
        BalsOnly(old(mem), old(mem), mem, p, Nodes(s), Nodes(s));
      } else if BalOf(mem, n.value) != Lean(d1) {
        mem := SetBal(mem, n.value, Even);
        ghost var mid := mem;
        Evened(old(mem), mid, p, s, d1);
        LeanDown(Get(mem, Link(n.value, d1)), x, y);
        LeantSide(mid, mem, s.node, Even, d1, y, LeanTo(keys, y, x), Kid(s, !d1), Nodes(y));
        BalsOnly(old(mem), mid, mem, p, Nodes(s), Nodes(y));
      } else {
        LiftHigh(p, x, d1, s);
      }
    }

    /** `insert`: refuse a range that meets a member, else add the node and keep order and balance. */
    method Insert(x: Node) returns (ok: bool)
      requires Valid() && x in keys && AlignedInfo(keys[x]) && keys[x].space == space && x !in Nodes(t)
      requires Get(mem, Link(x, false)) == None && Get(mem, Link(x, true)) == None && BalOf(mem, x) == Even
      modifies this`mem, this`t
      ensures Valid()
      ensures ok <==> forall n | n in Nodes(old(t)) :: n in keys && !Equal(keys, x, n)
      ensures ok ==>
                t == AvlModel.Insert(keys, old(t), x) && Nodes(t) == Nodes(old(t)) + {x}
                && OnlyNodes(old(mem), mem, Nodes(t))
      ensures !ok ==> mem == old(mem) && t == old(t)
    {
      hide Meets, Equal, Ranges, AlignedInfo, Balanced, Ascending, Distinct, Nodes, OnlyIn, Get, BalOf,
           AvlModel.Insert, Put, Fix, Side, OnlyNodes;
      var tree, p := Root, Root;
      ghost var u := t;
      PathClashIs(keys, space, Nodes(t), t, x);
      AscendingDistinct(keys, t);
      RootIs(mem);
      assert Rep(mem, Get(mem, Root), t) && Distinct(t) && x !in Nodes(t);
      while Get(mem, tree) != None
        invariant mem == old(mem) && t == old(t) && Rep(mem, Get(mem, tree), u) && Nodes(u) <= Nodes(t)
        invariant PathClash(keys, u, x) == PathClash(keys, t, x)
        invariant LeafLoc(keys, u, x, tree) == LeafLoc(keys, t, x, Root)
        invariant LowUneven(keys, u, x, tree, p) == LowUneven(keys, t, x, Root, Root)
        decreases u
      {
        var n := Get(mem, tree).value;
        KidsIn(u);
        RepKids(mem, Get(mem, tree), u, Side(keys, x, n));
        if Equal(keys, x, n) {
          return false;
        }
        if BalOf(mem, n) != Even {
          p := tree;
        }
        u := Kid(u, Side(keys, x, n));
        tree := Link(n, Side(keys, x, n));
      }
      LowUnevenIs(keys, t, x, Root, Root);
      FixLocRoot(keys, t, x);
      mem := Set(mem, tree, Some(x));
      PutRep(old(mem), mem, keys, t, x, Root);
      RootIs(mem);
      PutNodes(keys, t, x);
      ghost var mid, s := mem, FixTree(keys, t, x);
      FixTreeRep(mem, keys, t, x, Root);
      EqualOnlySelf(keys, space, Nodes(t), x);
      Rebalance(p, x, s, Put(keys, s, x));
      InsertRep(mid, mem, keys, t, x, Root);
      RootIs(mem);
      InsertChanges(old(mem), mid, mem, keys, t, x, p);
      t := AvlModel.Insert(keys, t, x);
      InsertValid(keys, space, old(t), x);
      ok := true;
    }

    /** `remove`: take a member out and keep order and balance. */
    method Remove(x: Node) returns (ok: bool)
      requires Valid() && x in keys && (x in Nodes(t) || forall n | n in Nodes(t) :: n in keys && !Equal(keys, x, n))
      modifies this`mem, this`t
      ensures Valid()
      ensures ok <==> x in Nodes(old(t))
      ensures ok ==> old(t).Bin? && t == AvlRemoval.Remove(keys, old(t), x) && Nodes(t) == Nodes(old(t)) - {x}
      ensures OnlyNodes(old(mem), mem, Nodes(old(t)))
      ensures !ok ==> mem == old(mem) && t == old(t)
    {
      hide Meets, Equal, Ranges, Balanced, Ascending, Distinct, Nodes, Get, BalOf, Set, SetBal, Side, OnWay, LastLoc,
           LastKid, LowStop, ItemWay, SettleHeap, StepHeap, ItemSettle, AvlRemoval.Remove, Absorbs, Inorder, Cut,
           FinishHeap, OnlyIn;
      OnlyInSame(mem, Root, Nodes(t));
      AscendingDistinct(keys, t);
      MemberOrApart(keys, space, Nodes(t), x);
      RootIs(mem);
      var p, tree, item, d := Root, Root, None, false;
      ghost var u := t;
      if mem.root == None {
        NoNodes();
        return false;
      }
      while true
        invariant mem == old(mem) && t == old(t) && u.Bin? && Rep(mem, Get(mem, tree), u) && Balanced(u)
        invariant Nodes(u) <= Nodes(t)
        invariant LowStop(keys, u, x, tree, p) == LowStop(keys, t, x, Root, Root)
        invariant LastLoc(keys, u, x, tree) == LastLoc(keys, t, x, Root)
        invariant ItemWay(keys, u, x, tree, item) == ItemWay(keys, t, x, Root, None)
        decreases u
      {
        var n := Get(mem, tree).value;
        WayStep(mem, keys, u, x, tree, p, item);
        if Equal(keys, x, n) {
          item := Some(tree);
        }
        d := Side(keys, x, n);
        if Get(mem, Link(n, d)) == None {
          break;
        }
        if BalOf(mem, n) == Even || (BalOf(mem, n) == Lean(!d) && BalOf(mem, Get(mem, Link(n, !d)).value) == Even) {
          p := tree;
        }
        tree, u := Link(n, d), Kid(u, d);
      }
      ItemWayIs(keys, t, x, Root, None);
      OnWayIs(keys, t, x);
      if item == None {
        return false;
      }
      LowStopIs(keys, t, x, Root, Root);
      StopLocRoot(keys, t, x);
      StopTreeRep(mem, keys, t, x, Root);
      StopTreeBalanced(keys, t, x);
      ghost var v := StopTree(keys, t, x);
      while true
        invariant t == old(t) && v.Bin? && Rep(mem, Get(mem, p), v) && Balanced(v) && Distinct(v) && Off(p, v)
        invariant item != None
        invariant SettleHeap(keys, mem, v, x, p) ==
                  SettleHeap(keys, old(mem), StopTree(keys, t, x), x, StopLoc(keys, t, x, Root))
        invariant ItemSettle(keys, v, x, item.value) ==
                  ItemSettle(keys, StopTree(keys, t, x), x, XLoc(keys, t, x, Root))
        invariant LastKid(keys, v, x) == LastKid(keys, t, x)
        decreases v
      {
        var n := Get(mem, p).value;
        RepKids(mem, Get(mem, p), v, true);
        SettleUnfold(keys, mem, v, x, p, item.value);
        d := Side(keys, x, n);
        RepKids(mem, Get(mem, p), v, d);
        NilRep(mem, Get(mem, Link(n, d)), Kid(v, d));
        if Get(mem, Link(n, d)) == None {
          break;
        }
        item := SettleStep(p, n, d, x, item, v);
        p, v := Link(n, d), Kid(v, d);
      }
      ghost var s := mem;
      StopTreeLast(keys, t, x, old(mem));
      var n := Get(mem, tree).value;
      mem := Set(mem, item.value, Some(n));
      mem := Set(mem, tree, Get(mem, Link(n, !d)));
      mem := Set(mem, Link(n, false), Get(mem, Link(x, false)));
      mem := Set(mem, Link(n, true), Get(mem, Link(x, true)));
      mem := SetBal(mem, n, BalOf(mem, x));
      CutNodes(keys, t, x);
      Finished(s, mem, item.value, tree, n, Link(n, !d), x);
      RemoveRep(keys, old(mem), s, mem, t, x, item.value);
      RootIs(mem);
      t := AvlRemoval.Remove(keys, t, x);
      RemoveValid(keys, space, old(t), x);
      ok := true;
    }

    /** One step of the rebalancing loop of `remove`, on the way to side `d` of node `n` at `p`. */
    method SettleStep(p: Loc, n: Node, d: bool, x: Node, item: Option<Loc>, ghost v: Tree) returns (item': Option<Loc>)
      requires v.Bin? && Rep(mem, Get(mem, p), v) && Balanced(v) && Distinct(v) && Off(p, v) && n == v.node
      requires item != None
      requires Kid(v, d).Bin?
      modifies this`mem
      ensures mem == StepHeap(old(mem), v, d, p)
      ensures item' == if n == x && Rotates(v, d) then Some(Link(Top(v, d), d)) else item
      ensures Rep(mem, Get(mem, Link(n, d)), Kid(v, d)) && Balanced(Kid(v, d)) && Distinct(Kid(v, d))
      ensures Off(Link(n, d), Kid(v, d))
    {
      hide Rep, Balanced, Distinct, Nodes, Get, BalOf, RotateHeap, Rotate2Heap, Set, SetBal, Make, OnlyIn, UpperBal,
           LowerBal, Single, Double;
      item' := item;
      ghost var y := Kid(v, !d);
      RepKids(mem, Get(mem, p), v, d);
      DistinctKids(v, d);
      TallSide(v, d);
      if BalOf(mem, n) == Even {
        mem := SetBal(mem, n, Lean(!d));
      } else if BalOf(mem, n) == Lean(d) {
        mem := SetBal(mem, n, Even);
      } else {
        RepKids(mem, Get(mem, Link(n, !d)), y, d);
        NilRep(mem, Get(mem, Link(y.node, d)), Kid(y, d));
        var b := BalOf(mem, Get(mem, Link(n, !d)).value);
        var top;
        if b == Lean(d) {
          RepKids(mem, Get(mem, Link(y.node, d)), Kid(y, d), d);
          var r := Rotate2(p, !d, BalOf(mem, Get(mem, Link(Get(mem, Link(n, !d)).value, d)).value), v);
          Rotate2Top(old(mem), mem, p, v, d);
          top := Get(mem, p).value;
        } else {
          var r := Rotate(p, !d, v);
          RotateTop(old(mem), mem, p, v, d);
          top := Get(mem, p).value;
          if b == Even {
            mem := SetBal(SetBal(mem, n, Lean(!d)), top, Lean(d));
          }
        }
        if n == x {
          item' := Some(Link(top, d));
        }
      }
      StepRep(old(mem), mem, v, d, p);
      Frame(old(mem), mem, Get(old(mem), Link(n, d)), Kid(v, d));
      KidsBalanced(v, d);
    }

    /** The rotations of `insert`, for the side that has become too high. */
    method LiftHigh(p: Loc, x: Node, d1: bool, ghost s: Tree)
      requires s.Bin? && Kid(s, d1).Bin? && (Side(keys, x, Kid(s, d1).node) != d1 ==> Kid(Kid(s, d1), !d1).Bin?)
      requires Rep(mem, Get(mem, p), s) && Distinct(s) && Off(p, s) && x in keys
      requires forall n | n in Nodes(s) :: n in keys && (Equal(keys, x, n) <==> n == x)
      modifies this`mem
      ensures Rep(mem, Get(mem, p), Lift(keys, s, d1, x)) && OnlyIn(old(mem), mem, p, Nodes(s))
    {
      hide Rep, Distinct, Nodes, Make, OnlyIn, UpperBal, LowerBal, LeanTo, Get, BalOf, Equal;
      RepKids(mem, Get(mem, p), s, d1);
      var n := Get(mem, p).value;
      ghost var y := Kid(s, d1);
      RepKids(mem, Get(mem, Link(s.node, d1)), y, d1);
      DistinctKids(s, d1);
      DistinctKids(y, d1);
      var d2 := Side(keys, x, Get(mem, Link(n, d1)).value);
      if d1 == d2 {
        var start := Rotate(p, d1, s);
        ghost var mid := mem;
        SingleParts(mid, Get(mem, p), s, d1);
        LeanDown(start, x, Kid(y, d1));
        LeantSide(mid, mem, y.node, Even, d1, Kid(y, d1), LeanTo(keys, Kid(y, d1), x),
                  Make(s.node, Even, d1, Kid(y, !d1), Kid(s, !d1)), Nodes(Kid(y, d1)));
        BalsOnly(old(mem), mid, mem, p, Nodes(s), Nodes(Kid(y, d1)));
      } else {
        ghost var z := Kid(y, d2);
        RepKids(mem, Get(mem, Link(y.node, d2)), z, d1);
        DistinctKids(z, d1);
        n := Get(mem, Link(Get(mem, Link(n, d1)).value, d2)).value;
        var b := if Equal(keys, x, n) then Even else Lean(Side(keys, x, n));
        var start := Rotate2(p, d1, b, s);
        ghost var mid := mem;
        if b != Even {
          DoubleParts(mid, Get(mem, p), s, d1, b);
          LeanDown(start, x, Kid(z, b.d));
          DoubleLeant(mid, mem, Get(mem, p), s, d1, b, LeanTo(keys, Kid(z, b.d), x));
          BalsOnly(old(mem), mid, mem, p, Nodes(s), Nodes(Kid(z, b.d)));
        }
      }
    }
  }

  /** The nodes outside `u` are decided: those ending behind `addr` come after `best`. */
  ghost predicate Narrowed(keys: Keys, all: set<Node>, u: set<Node>, addr: nat, best: Option<Node>) {
    && (forall n | n in all && n !in u ::
        n in keys && (EndsBehind(keys, n, addr) ==> best != None && Base(keys, best.value) <= keys[n].base))
    && (best != None ==> best.value in all && best.value in keys && addr < keys[best.value].base)
    && (best != None ==> forall n | n in u :: Base(keys, n) < Base(keys, best.value))
  }

  lemma {:induction false} NodesInorder(t: Tree)
    ensures forall n :: n in Nodes(t) <==> n in Inorder(t)
  {
    if t.Bin? {
      NodesInorder(t.l);
      NodesInorder(t.r);
    }
  }

  /** A node, its sides and their order. */
  lemma NodesKids(keys: Keys, t: Tree)
    requires t.Bin? && Ascending(keys, Inorder(t))
    ensures Nodes(t) == Nodes(t.l) + {t.node} + Nodes(t.r)
    ensures Ascending(keys, Inorder(t.l)) && Ascending(keys, Inorder(t.r))
    ensures forall n | n in Nodes(t.l) :: Base(keys, n) < Base(keys, t.node)
    ensures forall n | n in Nodes(t.r) :: Base(keys, t.node) < Base(keys, n)
  {
    AscendingKids(keys, t);
    NodesInorder(t.l);
    NodesInorder(t.r);
  }

  /** The mask test tells whether the node holds the index. */
  lemma InNode(keys: Keys, all: set<Node>, n: Node, addr: nat)
    requires Ranges(keys, all) && n in all
    ensures n in keys
    ensures (Xor(keys[n].base, addr) / Pow2(keys[n].order) == 0 <==> InRange(keys[n].base, keys[n].order, addr))
  {
    hide Xor, Pow2, Meets;
    assert AlignedInfo(keys[n]);
    XorBlocks(keys[n].base, addr, keys[n].order);
    SameBlock(addr, keys[n].base, keys[n].order);
  }

  lemma LookupHit(keys: Keys, all: set<Node>, space: Space, m: Node, addr: nat)
    requires OneSpace(keys, space, all) && m in all && InRange(keys[m].base, keys[m].order, addr)
    ensures IsLookup(keys, all, space, addr, Some(m))
  {
    hide Ranges, Pow2;
    forall n | n in all && EndsBehind(keys, n, addr) ensures keys[m].base <= keys[n].base {
      if keys[n].base < keys[m].base { InOrder(keys, all, n, m); }
    }
  }

  lemma LookupStep(keys: Keys, all: set<Node>, space: Space, u: Tree, addr: nat, best: Option<Node>)
    requires OneSpace(keys, space, all) && u.Bin? && Ascending(keys, Inorder(u)) && Nodes(u) <= all
    requires Narrowed(keys, all, Nodes(u), addr, best)
    requires u.node in keys && !InRange(keys[u.node].base, keys[u.node].order, addr)
    ensures addr > keys[u.node].base ==> Narrowed(keys, all, Nodes(u.r), addr, best)
    ensures addr <= keys[u.node].base ==> Narrowed(keys, all, Nodes(u.l), addr, Some(u.node))
  {
    hide Ranges, Pow2, Ascending, Nodes, Inorder;
    NodesKids(keys, u);
    forall n | n in Nodes(u.l)
      ensures n in keys && n != u.node && keys[n].base + Pow2(keys[n].order) <= keys[u.node].base
    {
      RangesIn(keys, all, n, u.node);
      InOrder(keys, all, n, u.node);
    }
    forall n | n in Nodes(u.r) ensures n in keys {
      RangesIn(keys, all, n, u.node);
    }
  }

  lemma RangesIn(keys: Keys, all: set<Node>, n: Node, m: Node)
    requires Ranges(keys, all) && n in all && m in all
    ensures n in keys && m in keys
  {
  }

  lemma LookupMiss(keys: Keys, all: set<Node>, space: Space, u: Tree, addr: nat, best: Option<Node>)
    requires OneSpace(keys, space, all) && u.Nil? && Narrowed(keys, all, Nodes(u), addr, best)
    ensures IsLookup(keys, all, space, addr, best)
    ensures forall n | n in all :: !InRange(keys[n].base, keys[n].order, addr)
  {
    hide Ranges;
    forall n | n in all ensures !InRange(keys[n].base, keys[n].order, addr) {
      assert EndsBehind(keys, n, addr) ==> best != None;
    }
  }

  // ------------------------------------------------------------------- insert

  lemma PutShape(keys: Keys, s0: Tree, x: Node)
    requires Balanced(s0)
    ensures var s, d := Put(keys, s0, x), Side(keys, x, Put(keys, s0, x).node);
            && s.Bin?
            && (s.bal == Lean(d) ==> Kid(s, d).Bin? && (Side(keys, x, Kid(s, d).node) != d ==> Kid(Kid(s, d), !d).Bin?))
  {
    if s0.Bin? {
      var d := Side(keys, x, s0.node);
      PutKids(keys, s0, x);
      KidsBalanced(s0, d);
      if s0.bal == Lean(d) { PutKids(keys, Kid(s0, d), x); }
    }
  }

  lemma BalsOnly(h: Heap, mid: Heap, h': Heap, p: Loc, s: set<Node>, v: set<Node>)
    requires OnlyIn(h, mid, p, s) && BalsIn(mid, h', v) && v <= s
    ensures OnlyIn(h, h', p, s) && Get(h', p) == Get(mid, p)
  {
  }

  lemma Evened(h: Heap, h': Heap, p: Loc, s: Tree, d: bool)
    requires s.Bin? && Rep(h, Get(h, p), s) && Distinct(s) && h' == SetBal(h, s.node, Even)
    ensures Rep(h', Get(h', p), Make(s.node, Even, d, Kid(s, d), Kid(s, !d)))
    ensures Distinct(Make(s.node, Even, d, Kid(s, d), Kid(s, !d)))
    ensures Get(h', p) == Some(s.node) && Rep(h', Get(h', Link(s.node, d)), Kid(s, d)) && OnlyIn(h, h', p, Nodes(s))
    ensures Nodes(Kid(s, d)) <= Nodes(s)
  {
    hide Rep, Nodes, Make, Distinct, Get, BalOf;
    WrittenBal(h, s.node, Even);
    DistinctKids(s, d);
    RepKids(h, Get(h, p), s, d);
    BalsFrame(h, h', {s.node}, Get(h, Link(s.node, d)), Kid(s, d));
    BalsFrame(h, h', {s.node}, Get(h, Link(s.node, !d)), Kid(s, !d));
    RepMake(h', s.node, Even, d, Kid(s, d), Kid(s, !d));
    DistinctMake(s.node, Even, d, Kid(s, d), Kid(s, !d));
  }

  lemma SingleParts(h: Heap, r: Option<Node>, s: Tree, d: bool)
    requires s.Bin? && Kid(s, d).Bin? && Distinct(s)
    requires var y := Kid(s, d); Rep(h, r, Single(s.node, y.node, Even, Even, d, Kid(y, d), Kid(y, !d), Kid(s, !d)))
    ensures var y := Kid(s, d);
            && Distinct(Single(s.node, y.node, Even, Even, d, Kid(y, d), Kid(y, !d), Kid(s, !d)))
            && r == Some(y.node) && Rep(h, Get(h, Link(y.node, d)), Kid(y, d)) && Distinct(Kid(y, d))
            && Nodes(Kid(y, d)) <= Nodes(s)
  {
    hide Rep, Nodes, Distinct, Get, BalOf, Make;
    var n, y := s.node, Kid(s, d);
    DistinctKids(s, d);
    DistinctKids(y, d);
    var low := Make(n, Even, d, Kid(y, !d), Kid(s, !d));
    DistinctMake(n, Even, d, Kid(y, !d), Kid(s, !d));
    DistinctMake(y.node, Even, d, Kid(y, d), low);
    RepRoot(h, r, y.node, Even, d, Kid(y, d), low);
    RepMake(h, y.node, Even, d, Kid(y, d), low);
  }

  function Lifted(s: Tree, d: bool, b: Bal, i: Tree, j: Tree): Tree
    requires s.Bin? && Kid(s, d).Bin? && Kid(Kid(s, d), !d).Bin?
  {
    Double(s.node, Kid(s, d).node, Kid(Kid(s, d), !d).node, UpperBal(d, b), LowerBal(d, b), d, Kid(Kid(s, d), d), i, j,
           Kid(s, !d))
  }

  lemma DoubleParts(h: Heap, r: Option<Node>, s: Tree, d: bool, b: Bal)
    requires s.Bin? && Kid(s, d).Bin? && Kid(Kid(s, d), !d).Bin? && Distinct(s) && b.Lean?
    requires var z := Kid(Kid(s, d), !d); Rep(h, r, Lifted(s, d, b, Kid(z, d), Kid(z, !d)))
    ensures var z := Kid(Kid(s, d), !d);
            && Rep(h, if b.d == d then Get(h, Link(Kid(s, d).node, !d)) else Get(h, Link(s.node, d)), Kid(z, b.d))
            && Distinct(Kid(z, b.d)) && Nodes(Kid(z, b.d)) <= Nodes(s)
  {
    hide Rep, Nodes, Distinct, Get, BalOf, Make, UpperBal, LowerBal;
    var n, y := s.node, Kid(s, d);
    var z := Kid(y, !d);
    DistinctKids(s, d);
    DistinctKids(y, d);
    DistinctKids(z, d);
    var low, up := Make(y.node, LowerBal(d, b), d, Kid(y, d), Kid(z, d)),
      Make(n, UpperBal(d, b), d, Kid(z, !d), Kid(s, !d));
    RepRoot(h, r, z.node, Even, d, low, up);
    RepMake(h, z.node, Even, d, low, up);
    RepRoot(h, Get(h, Link(z.node, d)), y.node, LowerBal(d, b), d, Kid(y, d), Kid(z, d));
    RepRoot(h, Get(h, Link(z.node, !d)), n, UpperBal(d, b), d, Kid(z, !d), Kid(s, !d));
    RepMake(h, y.node, LowerBal(d, b), d, Kid(y, d), Kid(z, d));
    RepMake(h, n, UpperBal(d, b), d, Kid(z, !d), Kid(s, !d));
  }

  lemma DoubleLeant(h: Heap, h': Heap, r: Option<Node>, s: Tree, d: bool, b: Bal, g: Tree)
    requires s.Bin? && Kid(s, d).Bin? && Kid(Kid(s, d), !d).Bin? && Distinct(s) && b.Lean?
    requires var z := Kid(Kid(s, d), !d);
             Rep(h, r, Lifted(s, d, b, Kid(z, d), Kid(z, !d))) && BalsIn(h, h', Nodes(Kid(z, b.d)))
             && Rep(h', if b.d == d then Get(h', Link(Kid(s, d).node, !d)) else Get(h', Link(s.node, d)), g)
    ensures var z := Kid(Kid(s, d), !d);
            Rep(h', r, Lifted(s, d, b, if b.d == d then g else Kid(z, d), if b.d == d then Kid(z, !d) else g))
  {
    hide Rep, Nodes, Distinct, Get, BalOf, Make, UpperBal, LowerBal;
    var n, y := s.node, Kid(s, d);
    var z := Kid(y, !d);
    DistinctKids(s, d);
    DistinctKids(y, d);
    DistinctKids(z, d);
    var lb, ub := LowerBal(d, b), UpperBal(d, b);
    var low, up := Make(y.node, lb, d, Kid(y, d), Kid(z, d)), Make(n, ub, d, Kid(z, !d), Kid(s, !d));
    DistinctMake(y.node, lb, d, Kid(y, d), Kid(z, d));
    DistinctMake(n, ub, d, Kid(z, !d), Kid(s, !d));
    DistinctMake(z.node, Even, d, low, up);
    RepRoot(h, r, z.node, Even, d, low, up);
    RepMake(h, z.node, Even, d, low, up);
    if b.d == d {
      RepRoot(h, Get(h, Link(z.node, d)), y.node, lb, d, Kid(y, d), Kid(z, d));
      FlipMake(y.node, lb, d, Kid(y, d), Kid(z, d));
      FlipMake(y.node, lb, d, Kid(y, d), g);
      LeantSide(h, h', y.node, lb, !d, Kid(z, d), g, Kid(y, d), Nodes(Kid(z, b.d)));
      LeantSide(h, h', z.node, Even, d, low, Make(y.node, lb, d, Kid(y, d), g), up, Nodes(Kid(z, b.d)));
    } else {
      RepRoot(h, Get(h, Link(z.node, !d)), n, ub, d, Kid(z, !d), Kid(s, !d));
      LeantSide(h, h', n, ub, d, Kid(z, !d), g, Kid(s, !d), Nodes(Kid(z, b.d)));
      FlipMake(z.node, Even, d, low, up);
      FlipMake(z.node, Even, d, low, Make(n, ub, d, g, Kid(s, !d)));
      LeantSide(h, h', z.node, Even, !d, up, Make(n, ub, d, g, Kid(s, !d)), low, Nodes(Kid(z, b.d)));
    }
  }

  /** A member that meets `x` stands on the way to it. */
  ghost predicate PathClash(keys: Keys, t: Tree, x: Node)
    requires x in keys
  {
    t.Bin? && (t.node in keys ==> Equal(keys, x, t.node) || PathClash(keys, Kid(t, Side(keys, x, t.node)), x))
  }

  lemma {:induction false} PathClashIs(keys: Keys, space: Space, all: set<Node>, t: Tree, x: Node)
    requires x in keys && AlignedInfo(keys[x]) && OneSpace(keys, space, all) && Nodes(t) <= all
    requires Ascending(keys, Inorder(t))
    ensures PathClash(keys, t, x) <==> exists n :: n in Nodes(t) && n in keys && Equal(keys, x, n)
  {
    hide Ranges, AlignedInfo, Ascending, Inorder, Pow2, Meets, Nodes;
    if t.Bin? {
      var m, d := t.node, Side(keys, x, t.node);
      NodesKids(keys, t);
      PathClashIs(keys, space, all, Kid(t, d), x);
      if !Equal(keys, x, m) {
        forall n | n in Nodes(Kid(t, !d)) ensures n in keys && !Equal(keys, x, n) {
          OtherSide(keys, space, all, m, n, x);
        }
      }
    } else {
      NoNodes();
    }
  }

  lemma NoNodes()
    ensures Nodes(Nil) == {}
  {
  }

  /** Beyond a node that `x` does not meet, on the far side, nothing meets `x`. */
  lemma OtherSide(keys: Keys, space: Space, all: set<Node>, m: Node, n: Node, x: Node)
    requires x in keys && AlignedInfo(keys[x]) && OneSpace(keys, space, all) && m in all && n in all && n != m
    requires !Equal(keys, x, m)
    requires Side(keys, x, m) ==> keys[n].base < keys[m].base
    requires !Side(keys, x, m) ==> keys[m].base < keys[n].base
    ensures !Equal(keys, x, n)
  {
    hide Ranges, Pow2, Meets, AlignedBy;
    RangesAligned(keys, all, m);
    RangesAligned(keys, all, n);
    MeetsByEnds(keys[x].base, keys[x].order, keys[m].base, keys[m].order);
    MeetsByEnds(keys[x].base, keys[x].order, keys[n].base, keys[n].order);
    if Side(keys, x, m) { InOrder(keys, all, n, m); } else { InOrder(keys, all, m, n); }
  }

  lemma RangesAligned(keys: Keys, all: set<Node>, n: Node)
    requires Ranges(keys, all) && n in all
    ensures n in keys && AlignedInfo(keys[n])
  {
  }

  lemma {:induction false} AscendingDistinct(keys: Keys, t: Tree)
    requires Ascending(keys, Inorder(t))
    ensures Distinct(t)
  {
    if t.Bin? {
      NodesKids(keys, t);
      AscendingDistinct(keys, t.l);
      AscendingDistinct(keys, t.r);
    }
  }

  lemma RootIs(h: Heap)
    ensures Get(h, Root) == h.root
  {
  }

  lemma KidsIn(t: Tree)
    ensures t.Bin? ==> t.node in Nodes(t) && Nodes(t.l) <= Nodes(t) && Nodes(t.r) <= Nodes(t)
  {
  }

  lemma FixLocRoot(keys: Keys, t: Tree, x: Node)
    ensures !Uneven(keys, t, x) ==> FixLoc(keys, t, x, Root) == Root
  {
  }

  /** The subtree to be rebalanced is a subtree in memory. */
  lemma {:induction false} FixTreeRep(h: Heap, keys: Keys, t: Tree, x: Node, here: Loc)
    requires Rep(h, Get(h, here), Put(keys, t, x)) && Distinct(Put(keys, t, x)) && Off(here, Put(keys, t, x))
    requires Balanced(t)
    ensures var s, p := FixTree(keys, t, x), FixLoc(keys, t, x, here);
            && Rep(h, Get(h, p), Put(keys, s, x)) && Distinct(Put(keys, s, x)) && Off(p, Put(keys, s, x)) && Balanced(s)
            && Nodes(Put(keys, s, x)) <= Nodes(Put(keys, t, x))
            && (p == here || (p.Link? && p.n in Nodes(Put(keys, t, x))))
  {
    hide Rep, Distinct, Nodes, Put, Balanced;
    if t.Bin? && Uneven(keys, Kid(t, Side(keys, x, t.node)), x) {
      var d := Side(keys, x, t.node);
      PutKids(keys, t, x);
      DistinctKids(Put(keys, t, x), d);
      RepKids(h, Get(h, here), Put(keys, t, x), d);
      KidsBalanced(t, d);
      FixTreeRep(h, keys, Kid(t, d), x, Link(t.node, d));
    }
  }

  lemma EqualOnlySelf(keys: Keys, space: Space, all: set<Node>, x: Node)
    requires x in keys && OneSpace(keys, space, all) && forall n | n in all :: n in keys && !Equal(keys, x, n)
    ensures forall n | n in all + {x} :: n in keys && (Equal(keys, x, n) <==> n == x)
  {
    hide Pow2, Xor;
    XorBlocks(keys[x].base, keys[x].base, keys[x].order);
  }

  lemma MemberOrApart(keys: Keys, space: Space, all: set<Node>, x: Node)
    requires x in keys && OneSpace(keys, space, all)
    requires (x in all || forall n | n in all :: n in keys && !Equal(keys, x, n))
    ensures forall n | n in all :: n in keys && (Equal(keys, x, n) <==> n == x)
  {
    hide Pow2, Xor;
    XorBlocks(keys[x].base, keys[x].base, keys[x].order);
  }

  /** Nothing outside the tree's nodes and the root pointer changes. */
  ghost predicate OnlyNodes(h: Heap, h': Heap, s: set<Node>) {
    OnlyIn(h, h', Root, s)
  }

  lemma InsertChanges(h: Heap, mid: Heap, h': Heap, keys: Keys, t: Tree, x: Node, p: Loc)
    requires var s := Put(keys, FixTree(keys, t, x), x);
             && OnlyIn(mid, h', p, Nodes(s)) && Nodes(s) <= Nodes(Put(keys, t, x))
             && (p == Root || (p.Link? && p.n in Nodes(Put(keys, t, x))))
    requires (forall q | Off(q, t) && q != Root :: Get(mid, q) == Get(h, q)) && forall n :: BalOf(mid, n) == BalOf(h, n)
    requires Nodes(Put(keys, t, x)) == Nodes(t) + {x}
    ensures OnlyNodes(h, h', Nodes(t) + {x})
  {
    hide Get, BalOf, Put, FixTree, Nodes;
  }

  lemma InsertValid(keys: Keys, space: Space, t: Tree, x: Node)
    requires Balanced(t) && Ascending(keys, Inorder(t)) && OneSpace(keys, space, Nodes(t)) && x !in Nodes(t)
    requires x in keys && AlignedInfo(keys[x]) && keys[x].space == space
    requires forall n | n in Nodes(t) :: n in keys && !Equal(keys, x, n)
    ensures var t' := Insert(keys, t, x);
            && Balanced(t') && Ascending(keys, Inorder(t')) && Nodes(t') == Nodes(t) + {x}
            && OneSpace(keys, space, Nodes(t'))
  {
    hide Balanced, Ascending, Inorder, Nodes, Put, Insert, AlignedInfo, Meets;
    NodesInorder(t);
    InsertFacts(keys, t, x);
    forall n | n in Inorder(t) ensures Base(keys, n) != Base(keys, x) {
      RangesAligned(keys, Nodes(t), n);
      SameBase(keys, x, n);
    }
    PutOrder(keys, t, x);
    NodesInorder(Put(keys, t, x));
    NodesInorder(Insert(keys, t, x));
    forall n | n in Nodes(t) ensures !Equal(keys, n, x) {
      MeetsSym(keys[x].base, keys[x].order, keys[n].base, keys[n].order);
    }
  }

  lemma SameBase(keys: Keys, x: Node, n: Node)
    requires x in keys && n in keys && AlignedInfo(keys[x]) && AlignedInfo(keys[n]) && !Equal(keys, x, n)
    ensures keys[x].base != keys[n].base
  {
    MeetsByEnds(keys[x].base, keys[x].order, keys[n].base, keys[n].order);
  }

  // ------------------------------------------------------------------- remove

  /** One step down the way. */
  lemma WayStep(h: Heap, keys: Keys, u: Tree, x: Node, tree: Loc, p: Loc, item: Option<Loc>)
    requires u.Bin? && Rep(h, Get(h, tree), u) && Balanced(u)
    ensures var d := Side(keys, x, u.node);
            && Get(h, tree) == Some(u.node) && u.node in Nodes(u) && Nodes(Kid(u, d)) <= Nodes(u) && Balanced(Kid(u, d))
            && (Get(h, Link(u.node, d)) == None <==> Kid(u, d).Nil?) && Rep(h, Get(h, Link(u.node, d)), Kid(u, d))
            && (BalOf(h, u.node) == Lean(!d) ==> Get(h, Link(u.node, !d)) != None)
            && (Kid(u, d).Bin? ==>
                  && (Absorbs(u, d) <==>
                      BalOf(h, u.node) == Even
                        || (BalOf(h, u.node) == Lean(!d) && BalOf(h, Get(h, Link(u.node, !d)).value) == Even))
                  && LowStop(keys, u, x, tree, p) ==
                    LowStop(keys, Kid(u, d), x, Link(u.node, d), if Absorbs(u, d) then tree else p)
                  && LastLoc(keys, u, x, tree) == LastLoc(keys, Kid(u, d), x, Link(u.node, d))
                  && ItemWay(keys, u, x, tree, item) ==
                    ItemWay(keys, Kid(u, d), x, Link(u.node, d), if u.node == x then Some(tree) else item))
            && (Kid(u, d).Nil? ==>
                  && LowStop(keys, u, x, tree, p) == p && LastLoc(keys, u, x, tree) == tree
                  && ItemWay(keys, u, x, tree, item) == if u.node == x then Some(tree) else item)
  {
    hide Balanced;
    var d := Side(keys, x, u.node);
    RepKids(h, Get(h, tree), u, d);
    TallSide(u, d);
    KidsBalanced(u, d);
  }

  /** A node leans to a side that is there. */
  lemma TallSide(v: Tree, d: bool)
    requires v.Bin? && Balanced(v)
    ensures v.bal == Lean(!d) ==> Kid(v, !d).Bin? && Rotates(v, d)
  {
    hide Balanced;
    KidsBalanced(v, d);
    EmptyHeight(Kid(v, !d));
    if v.bal == Lean(!d) {
      KidsBalanced(Kid(v, !d), d);
      EmptyHeight(Kid(Kid(v, !d), d));
    }
  }

  lemma NilRep(h: Heap, r: Option<Node>, t: Tree)
    requires Rep(h, r, t)
    ensures r == None <==> t.Nil?
  {
  }

  /** In a search tree, the members are the nodes on the way to them. */
  lemma {:induction false} OnWayIs(keys: Keys, t: Tree, x: Node)
    requires Ascending(keys, Inorder(t))
    ensures OnWay(keys, t, x) <==> x in Nodes(t)
  {
    hide Ascending;
    if t.Bin? {
      NodesKids(keys, t);
      OnWayIs(keys, Kid(t, Side(keys, x, t.node)), x);
    }
  }

  lemma StopLocRoot(keys: Keys, t: Tree, x: Node)
    requires t.Bin?
    ensures !Stops(keys, t, x) ==> StopLoc(keys, t, x, Root) == Root
  {
  }

  lemma {:induction false} StopTreeBalanced(keys: Keys, t: Tree, x: Node)
    requires t.Bin? && Balanced(t)
    ensures Balanced(StopTree(keys, t, x))
  {
    var d := Side(keys, x, t.node);
    if Stops(keys, Kid(t, d), x) { StopTreeBalanced(keys, Kid(t, d), x); }
  }

  lemma SettleUnfold(keys: Keys, h: Heap, v: Tree, x: Node, p: Loc, item: Loc)
    requires v.Bin?
    ensures var d := Side(keys, x, v.node);
            && (Kid(v, d).Nil? ==>
                SettleHeap(keys, h, v, x, p) == h && ItemSettle(keys, v, x, item) == item
                  && LastKid(keys, v, x) == Link(v.node, !d))
            && (Kid(v, d).Bin? ==>
                  && SettleHeap(keys, h, v, x, p) ==
                    SettleHeap(keys, StepHeap(h, v, d, p), Kid(v, d), x, Link(v.node, d))
                  && ItemSettle(keys, v, x, item) ==
                    ItemSettle(keys, Kid(v, d), x, if v.node == x && Rotates(v, d) then Link(Top(v, d), d) else item)
                  && LastKid(keys, v, x) == LastKid(keys, Kid(v, d), x))
  {
  }

  lemma Rotate2Top(h: Heap, h': Heap, p: Loc, v: Tree, d: bool)
    requires v.Bin? && Rotates(v, d) && Kid(v, !d).bal == Lean(d) && Distinct(v) && Off(p, v)
    requires h' == Rotate2Heap(h, p, v.node, Kid(v, !d).node, Kid(Kid(v, !d), d).node, !d, Kid(Kid(v, !d), d).bal)
    ensures Get(h', p) == Some(Top(v, d))
  {
    hide Distinct, Nodes, Rotate2Heap, Get;
    DistinctKids(v, d);
    DistinctKids(Kid(v, !d), d);
    KidsIn(Kid(v, !d));
    KidsIn(Kid(Kid(v, !d), d));
    Rotate2Reads(h, p, v.node, Kid(v, !d).node, Kid(Kid(v, !d), d).node, !d, Kid(Kid(v, !d), d).bal);
  }

  lemma RotateTop(h: Heap, h': Heap, p: Loc, v: Tree, d: bool)
    requires v.Bin? && Rotates(v, d) && Kid(v, !d).bal != Lean(d) && Distinct(v) && Off(p, v)
    requires h' == RotateHeap(h, p, v.node, Kid(v, !d).node, !d)
    ensures Get(h', p) == Some(Top(v, d))
  {
    hide Distinct, Nodes, RotateHeap;
    DistinctKids(v, d);
    KidsIn(Kid(v, !d));
    RotateReads(h, p, v.node, Kid(v, !d).node, !d);
  }

  /** The last node as the final writes find it. */
  lemma StopTreeLast(keys: Keys, t: Tree, x: Node, h: Heap)
    requires t.Bin? && Rep(h, Get(h, Root), t) && Distinct(t)
    ensures var s := SettleHeap(keys, h, StopTree(keys, t, x), x, StopLoc(keys, t, x, Root));
            && Get(s, LastLoc(keys, t, x, Root)) == Some(Last(keys, t, x))
            && LastKid(keys, t, x).Link? && LastKid(keys, t, x).n == Last(keys, t, x)
  {
    hide Rep, Distinct, Nodes, Get;
    StopTreeRep(h, keys, t, x, Root);
    LastReads(keys, h, StopTree(keys, t, x), x, StopLoc(keys, t, x, Root));
  }

  lemma Finished(s: Heap, h: Heap, item: Loc, tree: Loc, l: Node, kid: Loc, x: Node)
    requires var h1 := Set(s, item, Some(l));
             var h2 := Set(h1, tree, Get(h1, kid));
             var h3 := Set(h2, Link(l, false), Get(h2, Link(x, false)));
             var h4 := Set(h3, Link(l, true), Get(h3, Link(x, true)));
             h == SetBal(h4, l, BalOf(h4, x))
    ensures h == FinishHeap(s, item, tree, l, kid, x)
  {
  }

  lemma CutNodes(keys: Keys, t: Tree, x: Node)
    requires t.Bin? && Ascending(keys, Inorder(t))
    ensures Distinct(Cut(keys, t, x)) && Nodes(Cut(keys, t, x)) == Nodes(t) - {Last(keys, t, x)}
  {
    hide Ascending, Inorder, Cut, Nodes, Distinct, LastAt;
    CutOrder(keys, t, x);
    LastIs(keys, t, x);
    WithoutAscending(keys, Inorder(t), LastAt(keys, t, x));
    AscendingDistinct(keys, Cut(keys, t, x));
    NodesInorder(t);
    NodesInorder(Cut(keys, t, x));
  }

  lemma WithoutAscending(keys: Keys, s: seq<Node>, i: nat)
    requires Ascending(keys, s) && i < |s|
    ensures Ascending(keys, Without(s, i)) && forall n :: n in Without(s, i) <==> n in s && n != s[i]
  {
    AscendingNoDup(keys, s);
    WithoutMembers(s, i);
  }

  lemma RemoveValid(keys: Keys, space: Space, t: Tree, x: Node)
    requires t.Bin? && Balanced(t) && Ascending(keys, Inorder(t)) && OneSpace(keys, space, Nodes(t)) && x in Nodes(t)
    ensures var t' := Remove(keys, t, x);
            && Balanced(t') && Ascending(keys, Inorder(t')) && Nodes(t') == Nodes(t) - {x}
            && OneSpace(keys, space, Nodes(t'))
  {
    hide Balanced, Ascending, Inorder, Nodes, Remove, AlignedInfo, Meets;
    NodesInorder(t);
    var i := RemoveFacts(keys, t, x);
    WithoutAscending(keys, Inorder(t), i);
    NodesInorder(Remove(keys, t, x));
  }
}
