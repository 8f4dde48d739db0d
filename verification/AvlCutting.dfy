/** Removal on linked nodes: what rebalancing on the way down, cutting and replacing do to the represented tree. */
module AvlCutting {
  import opened Options
  import opened Derivation
  import opened AvlModel
  import opened AvlHeap
  import opened AvlRemoval

  /** Where the last node of the way hangs. */
  ghost function LastLoc(keys: Keys, t: Tree, x: Node, here: Loc): Loc
    requires t.Bin?
  {
    var d := Side(keys, x, t.node);
    if Kid(t, d).Nil? then here else LastLoc(keys, Kid(t, d), x, Link(t.node, d))
  }

  /** The last node's other side, which takes its place. */
  ghost function LastKid(keys: Keys, t: Tree, x: Node): Loc
    requires t.Bin?
  {
    var d := Side(keys, x, t.node);
    if Kid(t, d).Nil? then Link(t.node, !d) else LastKid(keys, Kid(t, d), x)
  }

  /** One step of the rebalancing loop of `remove`, at the subtree `t` that hangs at `p`. */
  ghost function StepHeap(h: Heap, t: Tree, d: bool, p: Loc): Heap
    requires t.Bin?
  {
    var n, y := t.node, Kid(t, !d);
    if t.bal == Even then SetBal(h, n, Lean(!d))
    else if !Rotates(t, d) then SetBal(h, n, Even)
    else if y.bal == Lean(d) then Rotate2Heap(h, p, n, y.node, Kid(y, d).node, !d, Kid(y, d).bal)
    else
      var h1 := RotateHeap(h, p, n, y.node, !d);
      if y.bal == Even then SetBal(SetBal(h1, n, Lean(!d)), y.node, Lean(d)) else h1
  }

  /** The whole loop. */
  ghost function SettleHeap(keys: Keys, h: Heap, t: Tree, x: Node, p: Loc): Heap
    requires t.Bin?
    decreases t
  {
    var d := Side(keys, x, t.node);
    if Kid(t, d).Nil? then h else SettleHeap(keys, StepHeap(h, t, d, p), Kid(t, d), x, Link(t.node, d))
  }

  /** `t` with side `d` not yet changed, as the step leaves it. */
  lemma StepRep(h: Heap, h': Heap, t: Tree, d: bool, p: Loc)
    requires t.Bin? && Rep(h, Get(h, p), t) && Distinct(t) && Off(p, t) && h' == StepHeap(h, t, d, p)
    ensures Rep(h', Get(h', p), Settle(t, d, Kid(t, d))) && OnlyIn(h, h', p, Nodes(t))
    ensures Get(h', Link(t.node, d)) == Get(h, Link(t.node, d))
    ensures forall m | m in Nodes(Kid(t, d)) :: SameAt(h, h', m)
  {
    hide Rep, Distinct, Nodes, Make, Get, BalOf, RotateHeap, Rotate2Heap;
    var n, y, k := t.node, Kid(t, !d), Kid(t, d);
    DistinctKids(t, d);
    RepKids(h, Get(h, p), t, d);
    if !Rotates(t, d) || t.bal == Even {
      var b := if t.bal == Even then Lean(!d) else Even;
      WrittenBal(h, n, b);
      BalsFrame(h, h', {n}, Get(h, Link(n, d)), k);
      BalsFrame(h, h', {n}, Get(h, Link(n, !d)), y);
      RepMake(h', n, b, d, k, y);
    } else {
      RepKids(h, Get(h, Link(n, !d)), y, d);
      DistinctKids(y, d);
      if y.bal == Lean(d) {
        var z := Kid(y, d);
        DistinctKids(z, d);
        Rotate2Rep(h, h', p, t, !d, z.bal);
        RepKids(h, Get(h, Link(y.node, d)), z, d);
        Rotate2Reads(h, p, n, y.node, z.node, !d, z.bal);
      } else {
        var h1 := RotateHeap(h, p, n, y.node, !d);
        RotateRep(h, h1, p, t, !d);
        RotateReads(h, p, n, y.node, !d);
        SingleBals(h, h1, h', t, d, p);
      }
    }
  }

  /** The balance fields that the loop corrects after a single rotation. */
  lemma SingleBals(h: Heap, h1: Heap, h': Heap, t: Tree, d: bool, p: Loc)
    requires t.Bin? && Rotates(t, d) && Kid(t, !d).bal != Lean(d) && Distinct(t)
    requires var n, y := t.node, Kid(t, !d);
             && Rep(h1, Get(h1, p), Single(n, y.node, Even, Even, !d, Kid(y, !d), Kid(y, d), Kid(t, d)))
             && OnlyIn(h, h1, p, Nodes(t))
             && h' == if y.bal == Even then SetBal(SetBal(h1, n, Lean(!d)), y.node, Lean(d)) else h1
    ensures Rep(h', Get(h', p), Settle(t, d, Kid(t, d))) && OnlyIn(h, h', p, Nodes(t))
    ensures forall q :: Get(h', q) == Get(h1, q)
    ensures forall m | m != t.node && m != Kid(t, !d).node :: BalOf(h', m) == BalOf(h1, m)
  {
    hide Rep, Distinct, Nodes, Make, Get, BalOf, RotateHeap;
    var n, y, k := t.node, Kid(t, !d), Kid(t, d);
    DistinctKids(t, d);
    DistinctKids(y, d);
    if y.bal == Even {
      WrittenBal(h1, n, Lean(!d));
      WrittenBal(SetBal(h1, n, Lean(!d)), y.node, Lean(d));
      var low := Make(n, Even, !d, Kid(y, d), k);
      RepRoot(h1, Get(h1, p), y.node, Even, !d, Kid(y, !d), low);
      RepMake(h1, y.node, Even, !d, Kid(y, !d), low);
      RepRoot(h1, Get(h1, Link(y.node, d)), n, Even, !d, Kid(y, d), k);
      RepMake(h1, n, Even, !d, Kid(y, d), k);
      BalsFrame(h1, h', {n, y.node}, Get(h1, Link(n, !d)), Kid(y, d));
      BalsFrame(h1, h', {n, y.node}, Get(h1, Link(n, d)), k);
      BalsFrame(h1, h', {n, y.node}, Get(h1, Link(y.node, !d)), Kid(y, !d));
      RepMake(h', n, Lean(!d), !d, Kid(y, d), k);
      RepMake(h', y.node, Lean(d), !d, Kid(y, !d), Make(n, Lean(!d), !d, Kid(y, d), k));
    }
  }

  /** Once side `d` has been replaced in memory, the settled tree holds the replacement. */
  lemma SettleAbove(h: Heap, h': Heap, t: Tree, d: bool, p: Loc, k: Tree)
    requires t.Bin? && Distinct(t) && Off(p, t) && Rep(h, Get(h, p), Settle(t, d, Kid(t, d)))
    requires OnlyIn(h, h', Link(t.node, d), Nodes(Kid(t, d))) && Rep(h', Get(h', Link(t.node, d)), k)
    ensures Rep(h', Get(h', p), Settle(t, d, k))
  {
    hide Rep, Distinct, Nodes, Make, Get, BalOf, OnlyIn;
    var n, y, k0 := t.node, Kid(t, !d), Kid(t, d);
    DistinctKids(t, d);
    if t.bal == Even {
      AboveMake(h, h', p, n, Lean(!d), d, k0, y, k, Link(n, d), Nodes(k0));
    } else if !Rotates(t, d) {
      AboveMake(h, h', p, n, Even, d, k0, y, k, Link(n, d), Nodes(k0));
    } else {
      DistinctKids(y, d);
      if y.bal == Lean(d) {
        var z := Kid(y, d);
        DistinctKids(z, d);
        var lb, ub := LowerBal(!d, z.bal), UpperBal(!d, z.bal);
        DistinctMake(y.node, lb, !d, Kid(y, !d), Kid(z, !d));
        AboveTwo(h, h', p, z.node, Even, d, Make(y.node, lb, !d, Kid(y, !d), Kid(z, !d)), n, ub, Kid(z, d), k0, k);
      } else {
        AboveTwo(h, h', p, y.node, TopBal(d, y.bal), d, Kid(y, !d), n, DownBal(d, y.bal), Kid(y, d), k0, k);
      }
    }
  }

  lemma AboveMake(h: Heap, h': Heap, here: Loc, n: Node, b: Bal, d: bool, a: Tree, o: Tree, k: Tree, p: Loc,
                  s: set<Node>)
    requires Rep(h, Get(h, here), Make(n, b, d, a, o)) && Distinct(a) && Distinct(o) && n !in Nodes(a) && n !in Nodes(o)
    requires Nodes(a) !! Nodes(o)
    requires here.Link? ==> here.n != n && here.n !in Nodes(a) && here.n !in Nodes(o)
    requires OnlyIn(h, h', p, s) && s <= Nodes(a) && (p == Link(n, d) || (p.Link? && p.n in Nodes(a)))
    requires Rep(h', Get(h', Link(n, d)), k)
    ensures Rep(h', Get(h', here), Make(n, b, d, k, o))
  {
    DistinctMake(n, b, d, a, o);
    Above(h, h', p, s, here, Make(n, b, d, a, o), d, k);
  }

  /** The same one level further down: `n` stands on side `d` of `m`, and side `d` of `n` is replaced. */
  lemma AboveTwo(h: Heap, h': Heap, here: Loc, m: Node, bm: Bal, d: bool, o: Tree, n: Node, b: Bal, i: Tree, a: Tree,
                 k: Tree)
    requires Rep(h, Get(h, here), Make(m, bm, !d, o, Make(n, b, !d, i, a)))
    requires Distinct(a) && Distinct(i) && Distinct(o) && n != m && n !in Nodes(a) + Nodes(i) + Nodes(o)
    requires m !in Nodes(a) + Nodes(i) + Nodes(o)
    requires Nodes(a) !! Nodes(i) && Nodes(a) !! Nodes(o) && Nodes(i) !! Nodes(o)
    requires here.Link? ==> here.n != n && here.n != m && here.n !in Nodes(a) + Nodes(i) + Nodes(o)
    requires OnlyIn(h, h', Link(n, d), Nodes(a)) && Rep(h', Get(h', Link(n, d)), k)
    ensures Rep(h', Get(h', here), Make(m, bm, !d, o, Make(n, b, !d, i, k)))
  {
    hide Rep, Distinct, Nodes, Make, Get, BalOf, OnlyIn;
    FlipMake(n, b, !d, i, a);
    FlipMake(n, b, !d, i, k);
    var low, low' := Make(n, b, d, a, i), Make(n, b, d, k, i);
    DistinctMake(n, b, d, a, i);
    RepRoot(h, Get(h, here), m, bm, !d, o, low);
    RepMake(h, m, bm, !d, o, low);
    AboveMake(h, h', Link(m, d), n, b, d, a, i, k, Link(n, d), Nodes(a));
    FlipMake(m, bm, !d, o, low);
    FlipMake(m, bm, !d, o, low');
    AboveMake(h, h', here, m, bm, d, low, o, low', Link(n, d), Nodes(a));
  }

  lemma OnlyInTrans(h: Heap, h1: Heap, h': Heap, p: Loc, s: set<Node>, q: Loc, v: set<Node>)
    requires OnlyIn(h, h1, p, s) && OnlyIn(h1, h', q, v) && v <= s && (q == p || (q.Link? && q.n in s))
    ensures OnlyIn(h, h', p, s)
  {
  }

  /** Rebalancing all the way and cutting out the last node leaves `CutAll` in memory. */
  lemma {:induction false} CutAllRep(keys: Keys, h: Heap, h': Heap, t: Tree, x: Node, p: Loc)
    requires t.Bin? && Rep(h, Get(h, p), t) && Distinct(t) && Off(p, t)
    requires var s := SettleHeap(keys, h, t, x, p); h' == Set(s, LastLoc(keys, t, x, p), Get(s, LastKid(keys, t, x)))
    ensures Rep(h', Get(h', p), CutAll(keys, t, x)) && OnlyIn(h, h', p, Nodes(t))
    decreases t
  {
    hide Rep, Distinct, Nodes, Make, Get, BalOf, StepHeap, Settle, Set;
    var d := Side(keys, x, t.node);
    DistinctKids(t, d);
    if Kid(t, d).Nil? {
      RepKids(h, Get(h, p), t, d);
      Written(h, p, Get(h, Link(t.node, !d)));
      OnlyInFrame(h, h', p, {}, Get(h, Link(t.node, !d)), Kid(t, !d));
    } else {
      var h1, k := StepHeap(h, t, d, p), Kid(t, d);
      StepRep(h, h1, t, d, p);
      RepKids(h, Get(h, p), t, d);
      Frame(h, h1, Get(h, Link(t.node, d)), k);
      CutAllRep(keys, h1, h', k, x, Link(t.node, d));
      SettleAbove(h1, h', t, d, p, CutAll(keys, k, x));
      OnlyInTrans(h, h1, h', p, Nodes(t), Link(t.node, d), Nodes(k));
    }
  }

  /** The rebalancing loop neither moves nor changes the last node. */
  lemma {:induction false} LastReads(keys: Keys, h: Heap, t: Tree, x: Node, p: Loc)
    requires t.Bin? && Rep(h, Get(h, p), t) && Distinct(t) && Off(p, t)
    ensures var s, l := SettleHeap(keys, h, t, x, p), Last(keys, t, x);
            && Get(s, LastLoc(keys, t, x, p)) == Some(l) && l in Nodes(t) && LastKid(keys, t, x).Link?
            && LastKid(keys, t, x).n == l
            && (LastLoc(keys, t, x, p) == p
                || (LastLoc(keys, t, x, p).Link? && LastLoc(keys, t, x, p).n in Nodes(t)
                    && LastLoc(keys, t, x, p).n != l))
            && OnlyIn(h, s, p, Nodes(t))
    decreases t
  {
    hide Rep, Distinct, Nodes, Make, Get, BalOf, StepHeap, Settle, OnlyIn;
    var d := Side(keys, x, t.node);
    DistinctKids(t, d);
    RepKids(h, Get(h, p), t, d);
    if Kid(t, d).Bin? {
      var h1, k := StepHeap(h, t, d, p), Kid(t, d);
      StepRep(h, h1, t, d, p);
      Frame(h, h1, Get(h, Link(t.node, d)), k);
      LastReads(keys, h1, k, x, Link(t.node, d));
      OnlyInTrans(h, h1, SettleHeap(keys, h, t, x, p), p, Nodes(t), Link(t.node, d), Nodes(k));
    } else {
      OnlyInSame(h, p, Nodes(t));
    }
  }

  lemma OnlyInSame(h: Heap, p: Loc, s: set<Node>)
    ensures OnlyIn(h, h, p, s)
  {
  }

  // ------------------------------------------------- from the lowest absorber up

  ghost function StopLoc(keys: Keys, t: Tree, x: Node, here: Loc): Loc
    requires t.Bin?
  {
    var d := Side(keys, x, t.node);
    if Stops(keys, Kid(t, d), x) then StopLoc(keys, Kid(t, d), x, Link(t.node, d)) else here
  }

  ghost function StopTree(keys: Keys, t: Tree, x: Node): (s: Tree)
    requires t.Bin?
    ensures s.Bin?
  {
    var d := Side(keys, x, t.node);
    if Stops(keys, Kid(t, d), x) then StopTree(keys, Kid(t, d), x) else t
  }

  /** The pointer `remove` keeps to the lowest absorbing node seen. */
  ghost function LowStop(keys: Keys, t: Tree, x: Node, here: Loc, p: Loc): Loc
    requires t.Bin?
  {
    var d := Side(keys, x, t.node);
    if Kid(t, d).Nil? then p else LowStop(keys, Kid(t, d), x, Link(t.node, d), if Absorbs(t, d) then here else p)
  }

  lemma {:induction false} LowStopIs(keys: Keys, t: Tree, x: Node, here: Loc, p: Loc)
    requires t.Bin?
    ensures LowStop(keys, t, x, here, p) == if Stops(keys, t, x) then StopLoc(keys, t, x, here) else p
  {
    var d := Side(keys, x, t.node);
    if Kid(t, d).Bin? { LowStopIs(keys, Kid(t, d), x, Link(t.node, d), if Absorbs(t, d) then here else p); }
  }

  lemma {:induction false} StopTreeRep(h: Heap, keys: Keys, t: Tree, x: Node, here: Loc)
    requires t.Bin? && Rep(h, Get(h, here), t) && Distinct(t) && Off(here, t)
    ensures var s, p := StopTree(keys, t, x), StopLoc(keys, t, x, here);
            && Rep(h, Get(h, p), s) && Distinct(s) && Off(p, s) && Nodes(s) <= Nodes(t)
            && (p == here || (p.Link? && p.n in Nodes(t)))
            && Last(keys, s, x) == Last(keys, t, x) && LastLoc(keys, s, x, p) == LastLoc(keys, t, x, here)
            && LastKid(keys, s, x) == LastKid(keys, t, x)
  {
    hide Rep, Distinct, Nodes, Get;
    var d := Side(keys, x, t.node);
    if Stops(keys, Kid(t, d), x) {
      DistinctKids(t, d);
      RepKids(h, Get(h, here), t, d);
      StopTreeRep(h, keys, Kid(t, d), x, Link(t.node, d));
    }
  }

  lemma {:induction false} CutRep(h: Heap, h': Heap, keys: Keys, t: Tree, x: Node, here: Loc)
    requires t.Bin? && Rep(h, Get(h, here), t) && Distinct(t) && Off(here, t)
    requires var s, p := StopTree(keys, t, x), StopLoc(keys, t, x, here);
             Rep(h', Get(h', p), CutAll(keys, s, x)) && OnlyIn(h, h', p, Nodes(s))
    ensures Rep(h', Get(h', here), Cut(keys, t, x))
  {
    hide Rep, Distinct, Nodes, Get, OnlyIn, CutAll, Make;
    var d := Side(keys, x, t.node);
    if Stops(keys, Kid(t, d), x) {
      DistinctKids(t, d);
      RepKids(h, Get(h, here), t, d);
      StopTreeRep(h, keys, Kid(t, d), x, Link(t.node, d));
      CutRep(h, h', keys, Kid(t, d), x, Link(t.node, d));
      Above(h, h', StopLoc(keys, t, x, here), Nodes(StopTree(keys, t, x)), here, t, d, Cut(keys, Kid(t, d), x));
    }
  }

  // ------------------------------------------------------ the pointer to the item

  /** Pointer `loc` leads to node `x` of the tree that hangs at `here`. */
  ghost predicate LocIn(t: Tree, here: Loc, loc: Loc, x: Node) {
    t.Bin? && ((t.node == x && loc == here) || LocIn(t.l, Link(t.node, false), loc, x)
               || LocIn(t.r, Link(t.node, true), loc, x))
  }

  /** `x` stands on the way. */
  ghost predicate OnWay(keys: Keys, t: Tree, x: Node) {
    t.Bin? && (t.node == x || OnWay(keys, Kid(t, Side(keys, x, t.node)), x))
  }

  ghost function XLoc(keys: Keys, t: Tree, x: Node, here: Loc): Loc {
    if t.Nil? || t.node == x then here
    else XLoc(keys, Kid(t, Side(keys, x, t.node)), x, Link(t.node, Side(keys, x, t.node)))
  }

  /** The pointer `item` after the search loop. */
  ghost function ItemWay(keys: Keys, t: Tree, x: Node, here: Loc, item: Option<Loc>): Option<Loc>
    requires t.Bin?
  {
    var d := Side(keys, x, t.node);
    var it := if t.node == x then Some(here) else item;
    if Kid(t, d).Nil? then it else ItemWay(keys, Kid(t, d), x, Link(t.node, d), it)
  }

  lemma {:induction false} ItemWayIs(keys: Keys, t: Tree, x: Node, here: Loc, item: Option<Loc>)
    requires t.Bin? && Distinct(t)
    ensures x !in Nodes(t) ==> ItemWay(keys, t, x, here, item) == item
    ensures OnWay(keys, t, x) ==> ItemWay(keys, t, x, here, item) == Some(XLoc(keys, t, x, here))
    ensures !OnWay(keys, t, x) ==> ItemWay(keys, t, x, here, item) == item
    ensures OnWay(keys, t, x) ==> x in Nodes(t)
  {
    hide Distinct;
    var d := Side(keys, x, t.node);
    DistinctKids(t, d);
    assert OnWay(keys, t, x) <==> t.node == x || OnWay(keys, Kid(t, d), x);
    if Kid(t, d).Bin? { ItemWayIs(keys, Kid(t, d), x, Link(t.node, d), if t.node == x then Some(here) else item); }
  }

  /** The node a rotation lifts to the top. */
  function Top(t: Tree, d: bool): Node
    requires t.Bin? && Rotates(t, d)
  {
    if Kid(t, !d).bal == Lean(d) then Kid(Kid(t, !d), d).node else Kid(t, !d).node
  }

  /** The pointer `item` after the rebalancing loop. */
  ghost function ItemSettle(keys: Keys, t: Tree, x: Node, item: Loc): Loc
    requires t.Bin?
  {
    var d := Side(keys, x, t.node);
    if Kid(t, d).Nil? then item
    else ItemSettle(keys, Kid(t, d), x, if t.node == x && Rotates(t, d) then Link(Top(t, d), d) else item)
  }

  lemma {:induction false} ItemSettleOff(keys: Keys, t: Tree, x: Node, item: Loc)
    requires t.Bin? && x !in Nodes(t)
    ensures ItemSettle(keys, t, x, item) == item
  {
    var d := Side(keys, x, t.node);
    if Kid(t, d).Bin? { ItemSettleOff(keys, Kid(t, d), x, item); }
  }

  /** Replacing side `d` leaves the pointers into the replacement, and to the node itself, where the loop says. */
  lemma SettleLoc(t: Tree, d: bool, k: Tree, here: Loc, loc: Loc, x: Node)
    requires t.Bin?
    ensures LocIn(k, Link(t.node, d), loc, x) ==> LocIn(Settle(t, d, k), here, loc, x)
    ensures LocIn(Settle(t, d, k), here, if Rotates(t, d) then Link(Top(t, d), d) else here, t.node)
  {
    hide LocIn;
    var n, y := t.node, Kid(t, !d);
    if !Rotates(t, d) {
      LocMake(n, Lean(!d), d, k, y, here, loc, x);
      LocMake(n, Even, d, k, y, here, loc, x);
    } else if y.bal == Lean(d) {
      var z := Kid(y, d);
      var lb, ub := LowerBal(!d, z.bal), UpperBal(!d, z.bal);
      LocTwo(z.node, Even, d, Make(y.node, lb, !d, Kid(y, !d), Kid(z, !d)), n, ub, Kid(z, d), k, here, loc, x);
    } else {
      LocTwo(y.node, TopBal(d, y.bal), d, Kid(y, !d), n, DownBal(d, y.bal), Kid(y, d), k, here, loc, x);
    }
  }

  lemma LocMake(n: Node, b: Bal, d: bool, a: Tree, o: Tree, here: Loc, loc: Loc, x: Node)
    ensures LocIn(a, Link(n, d), loc, x) ==> LocIn(Make(n, b, d, a, o), here, loc, x)
    ensures LocIn(Make(n, b, d, a, o), here, here, n)
  {
  }

  lemma LocTwo(m: Node, bm: Bal, d: bool, o: Tree, n: Node, b: Bal, i: Tree, k: Tree, here: Loc, loc: Loc, x: Node)
    ensures LocIn(k, Link(n, d), loc, x) ==> LocIn(Make(m, bm, !d, o, Make(n, b, !d, i, k)), here, loc, x)
    ensures LocIn(Make(m, bm, !d, o, Make(n, b, !d, i, k)), here, Link(m, d), n)
  {
    hide LocIn, Make;
    var low := Make(n, b, d, k, i);
    FlipMake(n, b, !d, i, k);
    FlipMake(m, bm, !d, o, low);
    LocMake(n, b, d, k, i, Link(m, d), loc, x);
    LocMake(m, bm, d, low, o, here, loc, x);
    LocMake(m, bm, d, low, o, here, Link(m, d), n);
  }

  lemma {:induction false} LocAll(keys: Keys, t: Tree, x: Node, p: Loc)
    requires t.Bin? && Distinct(t) && Off(p, t) && OnWay(keys, t, x) && x != Last(keys, t, x)
    ensures var item := ItemSettle(keys, t, x, XLoc(keys, t, x, p));
            LocIn(CutAll(keys, t, x), p, item, x) && item != LastLoc(keys, t, x, p)
  {
    hide LocIn, Settle, Distinct, Nodes, Top;
    var d := Side(keys, x, t.node);
    DistinctKids(t, d);
    var k := Kid(t, d);
    if k.Bin? {
      LastLocIn(keys, k, x, Link(t.node, d));
      if t.node == x {
        var item := if Rotates(t, d) then Link(Top(t, d), d) else p;
        ItemSettleOff(keys, k, x, item);
        SettleLoc(t, d, CutAll(keys, k, x), p, item, x);
        if Rotates(t, d) { TopIn(t, d); }
      } else {
        LocAll(keys, k, x, Link(t.node, d));
        SettleLoc(t, d, CutAll(keys, k, x), p, ItemSettle(keys, t, x, XLoc(keys, t, x, p)), x);
      }
    }
  }

  lemma TopIn(t: Tree, d: bool)
    requires t.Bin? && Rotates(t, d)
    ensures Top(t, d) in Nodes(Kid(t, !d))
  {
  }

  lemma {:induction false} LastLocIn(keys: Keys, t: Tree, x: Node, here: Loc)
    requires t.Bin?
    ensures var l := LastLoc(keys, t, x, here); l == here || (l.Link? && l.n in Nodes(t))
  {
    var d := Side(keys, x, t.node);
    if Kid(t, d).Bin? { LastLocIn(keys, Kid(t, d), x, Link(t.node, d)); }
  }

  lemma {:induction false} LocCut(keys: Keys, t: Tree, x: Node, here: Loc)
    requires t.Bin? && Distinct(t) && Off(here, t) && OnWay(keys, t, x) && x != Last(keys, t, x)
    ensures var item := ItemSettle(keys, StopTree(keys, t, x), x, XLoc(keys, t, x, here));
            LocIn(Cut(keys, t, x), here, item, x) && item != LastLoc(keys, t, x, here)
  {
    hide LocIn, CutAll, Distinct, Nodes, Make, ItemSettle;
    var d := Side(keys, x, t.node);
    if Stops(keys, Kid(t, d), x) {
      DistinctKids(t, d);
      var k := Kid(t, d);
      var loc := ItemSettle(keys, StopTree(keys, t, x), x, XLoc(keys, t, x, here));
      if t.node == x {
        StopTreeIn(keys, k, x);
        ItemSettleOff(keys, StopTree(keys, k, x), x, here);
        LastLocIn(keys, k, x, Link(t.node, d));
      } else {
        LocCut(keys, k, x, Link(t.node, d));
      }
      LocMake(t.node, t.bal, d, Cut(keys, k, x), Kid(t, !d), here, loc, x);
    } else {
      LocAll(keys, t, x, here);
    }
  }

  lemma {:induction false} StopTreeIn(keys: Keys, t: Tree, x: Node)
    requires t.Bin?
    ensures Nodes(StopTree(keys, t, x)) <= Nodes(t)
  {
    var d := Side(keys, x, t.node);
    if Stops(keys, Kid(t, d), x) { StopTreeIn(keys, Kid(t, d), x); }
  }

  // ------------------------------------------------------------------ replacing

  lemma {:induction false} LocInNodes(t: Tree, here: Loc, loc: Loc, x: Node)
    requires LocIn(t, here, loc, x) && Distinct(t) && (here.Link? ==> here.n != x)
    ensures x in Nodes(t) && (loc == here || (loc.Link? && loc.n in Nodes(t))) && (loc.Link? ==> loc.n != x)
  {
    if !(t.node == x && loc == here) {
      if LocIn(t.l, Link(t.node, false), loc, x) {
        LocInside(t.l, Link(t.node, false), loc, x);
        LocInNodes(t.l, Link(t.node, false), loc, x);
      } else {
        LocInside(t.r, Link(t.node, true), loc, x);
        LocInNodes(t.r, Link(t.node, true), loc, x);
      }
    }
  }

  lemma {:induction false} LocInside(t: Tree, here: Loc, loc: Loc, x: Node)
    requires LocIn(t, here, loc, x)
    ensures x in Nodes(t)
  {
    if !(t.node == x && loc == here) {
      if LocIn(t.l, Link(t.node, false), loc, x) { LocInside(t.l, Link(t.node, false), loc, x); }
      else { LocInside(t.r, Link(t.node, true), loc, x); }
    }
  }

  lemma {:induction false} RenameNone(t: Tree, x: Node, y: Node)
    requires x !in Nodes(t)
    ensures Rename(t, x, y) == t
  {
    if t.Bin? {
      RenameNone(t.l, x, y);
      RenameNone(t.r, x, y);
    }
  }

  /** `h'` is `h` with `y` in the place of `x`, to which `loc` led. */
  ghost predicate Replaced(h: Heap, h': Heap, loc: Loc, x: Node, y: Node) {
    && Get(h', loc) == Some(y) && BalOf(h', y) == BalOf(h, x)
    && Get(h', Link(y, false)) == Get(h, Link(x, false)) && Get(h', Link(y, true)) == Get(h, Link(x, true))
    && (forall q | q != loc && (q.Link? ==> q.n != y) :: Get(h', q) == Get(h, q))
    && (forall m | m != y :: BalOf(h', m) == BalOf(h, m))
  }

  lemma ReplacedFrame(h: Heap, h': Heap, loc: Loc, x: Node, y: Node, r: Option<Node>, t: Tree)
    requires Replaced(h, h', loc, x, y) && Rep(h, r, t) && Off(loc, t) && y !in Nodes(t)
    ensures Rep(h', r, t)
  {
    hide Nodes;
    Frame(h, h', r, t);
  }

  lemma {:induction false} RenameRep(h: Heap, h': Heap, t: Tree, here: Loc, loc: Loc, x: Node, y: Node)
    requires Rep(h, Get(h, here), t) && Distinct(t) && Off(here, t) && LocIn(t, here, loc, x) && y !in Nodes(t)
    requires Replaced(h, h', loc, x, y) && (here.Link? ==> here.n != y && here.n != x)
    ensures Rep(h', Get(h', here), Rename(t, x, y))
    decreases t
  {
    hide Rep, Nodes, Distinct, LocIn, Get, BalOf;
    LocCases(t, here, loc, x);
    LocInNodes(t, here, loc, x);
    DistinctKids(t, false);
    RepKids(h, Get(h, here), t, false);
    if t.node == x {
      if loc != here { LocElsewhere(t, here, loc, x); }
      ReplacedFrame(h, h', loc, x, y, Get(h, Link(x, false)), t.l);
      ReplacedFrame(h, h', loc, x, y, Get(h, Link(x, true)), t.r);
      RenameNone(t.l, x, y);
      RenameNone(t.r, x, y);
      RepKids(h', Get(h', here), Rename(t, x, y), false);
    } else {
      RenameSide(h, h', t, here, loc, x, y, LocIn(t.r, Link(t.node, true), loc, x));
    }
  }

  lemma LocCases(t: Tree, here: Loc, loc: Loc, x: Node)
    requires LocIn(t, here, loc, x)
    ensures t.Bin?
    ensures ((t.node == x && loc == here) || LocIn(t.l, Link(t.node, false), loc, x)
             || LocIn(t.r, Link(t.node, true), loc, x))
  {
  }

  /** The root of a tree is reached through `here` only. */
  lemma LocElsewhere(t: Tree, here: Loc, loc: Loc, x: Node)
    requires t.Bin? && Distinct(t) && t.node == x && LocIn(t, here, loc, x)
    ensures loc == here
  {
    if LocIn(t.l, Link(t.node, false), loc, x) { LocInside(t.l, Link(t.node, false), loc, x); }
    if LocIn(t.r, Link(t.node, true), loc, x) { LocInside(t.r, Link(t.node, true), loc, x); }
  }

  lemma {:induction false} RenameSide(h: Heap, h': Heap, t: Tree, here: Loc, loc: Loc, x: Node, y: Node, d: bool)
    requires t.Bin? && Rep(h, Get(h, here), t) && Distinct(t) && Off(here, t) && t.node != x && y !in Nodes(t)
    requires LocIn(Kid(t, d), Link(t.node, d), loc, x) && Replaced(h, h', loc, x, y)
    requires (here.Link? ==> here.n != y && here.n != x)
    ensures Rep(h', Get(h', here), Rename(t, x, y))
    decreases t, 0
  {
    hide Rep, Nodes, Distinct, LocIn, Get, BalOf;
    DistinctKids(t, d);
    RepKids(h, Get(h, here), t, d);
    LocInNodes(Kid(t, d), Link(t.node, d), loc, x);
    RenameRep(h, h', Kid(t, d), Link(t.node, d), loc, x, y);
    ReplacedFrame(h, h', loc, x, y, Get(h, Link(t.node, !d)), Kid(t, !d));
    RenameNone(Kid(t, !d), x, y);
    RepKids(h', Get(h', here), Rename(t, x, y), d);
  }

  // ------------------------------------------------------------------ all steps

  /** The writes that end `remove`: node `l`, at `tree`, gives way to `kid` and takes the place of `x`, at `item`. */
  function FinishHeap(h: Heap, item: Loc, tree: Loc, l: Node, kid: Loc, x: Node): Heap {
    var h1 := Set(h, item, Some(l));
    var h2 := Set(h1, tree, Get(h1, kid));
    var h3 := Set(h2, Link(l, false), Get(h2, Link(x, false)));
    var h4 := Set(h3, Link(l, true), Get(h3, Link(x, true)));
    SetBal(h4, l, BalOf(h4, x))
  }

  /** If the item itself is the last node, it is cut out. */
  lemma FinishSame(h: Heap, tree: Loc, x: Node, kid: Loc)
    requires kid.Link? && kid.n == x && (tree.Link? ==> tree.n != x)
    ensures var c, h' := Set(h, tree, Get(h, kid)), FinishHeap(h, tree, tree, x, kid, x);
            (forall q :: Get(h', q) == Get(c, q)) && (forall n :: BalOf(h', n) == BalOf(c, n))
  {
    hide Get, Set, BalOf, SetBal;
    var h1 := Set(h, tree, Some(x));
    var h2 := Set(h1, tree, Get(h1, kid));
    var h3 := Set(h2, Link(x, false), Get(h2, Link(x, false)));
    var h4 := Set(h3, Link(x, true), Get(h3, Link(x, true)));
    Written(h, tree, Get(h, kid));
    Written(h, tree, Some(x));
    Written(h1, tree, Get(h1, kid));
    Written(h2, Link(x, false), Get(h2, Link(x, false)));
    Written(h3, Link(x, true), Get(h3, Link(x, true)));
    WrittenBal(h4, x, BalOf(h4, x));
  }

  /** Otherwise the last node is cut out and replaces the item. */
  lemma FinishOther(h: Heap, item: Loc, tree: Loc, l: Node, kid: Loc, x: Node)
    requires kid.Link? && kid.n == l && l != x && item != tree && (item.Link? ==> item.n != x && item.n != l)
    requires (tree.Link? ==> tree.n != l)
    ensures Replaced(Set(h, tree, Get(h, kid)), FinishHeap(h, item, tree, l, kid, x), item, x, l)
  {
    hide Get, Set, BalOf, SetBal;
    var h1 := Set(h, item, Some(l));
    var h2 := Set(h1, tree, Get(h1, kid));
    var h3 := Set(h2, Link(l, false), Get(h2, Link(x, false)));
    var h4 := Set(h3, Link(l, true), Get(h3, Link(x, true)));
    Written(h, tree, Get(h, kid));
    Written(h, item, Some(l));
    Written(h1, tree, Get(h1, kid));
    Written(h2, Link(l, false), Get(h2, Link(x, false)));
    Written(h3, Link(l, true), Get(h3, Link(x, true)));
    WrittenBal(h4, l, BalOf(h4, x));
  }

  /** What all steps of `remove` together leave in memory. */
  lemma RemoveRep(keys: Keys, h: Heap, s: Heap, h': Heap, t: Tree, x: Node, item: Loc)
    requires t.Bin? && Rep(h, Get(h, Root), t) && Distinct(t) && OnWay(keys, t, x)
    requires s == SettleHeap(keys, h, StopTree(keys, t, x), x, StopLoc(keys, t, x, Root))
    requires item == ItemSettle(keys, StopTree(keys, t, x), x, XLoc(keys, t, x, Root))
    requires h' == FinishHeap(s, item, LastLoc(keys, t, x, Root), Last(keys, t, x), LastKid(keys, t, x), x)
    requires Distinct(Cut(keys, t, x)) && Nodes(Cut(keys, t, x)) == Nodes(t) - {Last(keys, t, x)}
    ensures Rep(h', Get(h', Root), Remove(keys, t, x)) && OnlyIn(h, h', Root, Nodes(t))
  {
    hide Rep, Distinct, Nodes, Get, Set, BalOf, SetBal, LocIn, Cut, FinishHeap, Rename, Replaced, SettleHeap,
         ItemSettle, XLoc, OnlyIn, CutAll;
    var u, p, l, tree, kid := StopTree(keys, t, x), StopLoc(keys, t, x, Root), Last(keys, t, x),
      LastLoc(keys, t, x, Root), LastKid(keys, t, x);
    StopTreeRep(h, keys, t, x, Root);
    LastReads(keys, h, u, x, p);
    var c := Set(s, tree, Get(s, kid));
    CutAllRep(keys, h, c, u, x, p);
    CutRep(h, c, keys, t, x, Root);
    LastAwayFrom(keys, t, x, Root);
    if l == x {
      ItemIsLast(keys, t, x, Root);
      FinishSame(s, tree, x, kid);
      Frame(c, h', Get(c, Root), Cut(keys, t, x));
      RenameNone(Cut(keys, t, x), x, l);
    } else {
      LocCut(keys, t, x, Root);
      LocInNodes(Cut(keys, t, x), Root, item, x);
      FinishOther(s, item, tree, l, kid, x);
      RenameRep(c, h', Cut(keys, t, x), Root, item, x, l);
    }
    LastLocIn(keys, t, x, Root);
    FinishOnly(s, item, tree, l, kid, x, Nodes(t));
    OnlyInWider(h, s, p, Nodes(u), Nodes(t));
    OnlyInTrans(h, s, h', Root, Nodes(t), Root, Nodes(t));
  }

  /** The final writes stay within the tree's nodes and the root pointer. */
  lemma FinishOnly(h: Heap, item: Loc, tree: Loc, l: Node, kid: Loc, x: Node, s: set<Node>)
    requires l in s && (item.Link? ==> item.n in s) && (tree.Link? ==> tree.n in s)
    ensures OnlyIn(h, FinishHeap(h, item, tree, l, kid, x), Root, s)
  {
    hide Get, Set, BalOf, SetBal;
    var h1 := Set(h, item, Some(l));
    var h2 := Set(h1, tree, Get(h1, kid));
    var h3 := Set(h2, Link(l, false), Get(h2, Link(x, false)));
    var h4 := Set(h3, Link(l, true), Get(h3, Link(x, true)));
    Written(h, item, Some(l));
    Written(h1, tree, Get(h1, kid));
    Written(h2, Link(l, false), Get(h2, Link(x, false)));
    Written(h3, Link(l, true), Get(h3, Link(x, true)));
    WrittenBal(h4, l, BalOf(h4, x));
  }

  lemma OnlyInWider(h: Heap, h': Heap, p: Loc, s: set<Node>, v: set<Node>)
    requires OnlyIn(h, h', p, s) && s <= v && (p == Root || (p.Link? && p.n in v))
    ensures OnlyIn(h, h', Root, v)
  {
  }

  lemma {:induction false} LastAwayFrom(keys: Keys, t: Tree, x: Node, here: Loc)
    requires t.Bin? && Distinct(t) && Off(here, t)
    ensures Last(keys, t, x) in Nodes(t)
    ensures (LastLoc(keys, t, x, here).Link? ==> LastLoc(keys, t, x, here).n != Last(keys, t, x))
  {
    hide Distinct;
    var d := Side(keys, x, t.node);
    DistinctKids(t, d);
    if Kid(t, d).Bin? { LastAwayFrom(keys, Kid(t, d), x, Link(t.node, d)); }
  }

  lemma {:induction false} ItemIsLast(keys: Keys, t: Tree, x: Node, here: Loc)
    requires t.Bin? && Distinct(t) && OnWay(keys, t, x) && Last(keys, t, x) == x
    ensures XLoc(keys, t, x, here) == LastLoc(keys, t, x, here)
    ensures ItemSettle(keys, StopTree(keys, t, x), x, XLoc(keys, t, x, here)) == XLoc(keys, t, x, here)
  {
    hide Distinct, Nodes;
    var d := Side(keys, x, t.node);
    DistinctKids(t, d);
    if Kid(t, d).Bin? {
      LastIn(keys, Kid(t, d), x);
      ItemIsLast(keys, Kid(t, d), x, Link(t.node, d));
      if !Stops(keys, Kid(t, d), x) { ItemKept(keys, t, x, XLoc(keys, t, x, here)); }
    }
  }

  lemma {:induction false} ItemKept(keys: Keys, t: Tree, x: Node, item: Loc)
    requires t.Bin? && Distinct(t) && Last(keys, t, x) == x
    ensures ItemSettle(keys, t, x, item) == item
  {
    hide Distinct, Nodes;
    var d := Side(keys, x, t.node);
    DistinctKids(t, d);
    if Kid(t, d).Bin? {
      LastIn(keys, Kid(t, d), x);
      ItemKept(keys, Kid(t, d), x, item);
    }
  }

  lemma {:induction false} LastIn(keys: Keys, t: Tree, x: Node)
    requires t.Bin?
    ensures Last(keys, t, x) in Nodes(t)
  {
    var d := Side(keys, x, t.node);
    if Kid(t, d).Bin? { LastIn(keys, Kid(t, d), x); }
  }
}
