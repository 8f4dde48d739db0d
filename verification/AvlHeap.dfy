/** Linked nodes in memory, the trees they represent, and what the pointer surgery of `avl.cpp` does to them. */
module AvlHeap {
  import opened Options
  import opened Derivation
  import opened AvlModel

  /** The root pointer, and links and balance of the nodes. A node without an entry is as constructed. */
  datatype Heap = Heap(root: Option<Node>, lnk: map<(Node, bool), Option<Node>>, bal: map<Node, Bal>)

  /** A pointer to a pointer: to the root, or to link `d` of a node. */
  datatype Loc = Root | Link(n: Node, d: bool)

  function Get(h: Heap, p: Loc): Option<Node> {
    match p
    case Root => h.root
    case Link(n, d) => if (n, d) in h.lnk then h.lnk[(n, d)] else None
  }

  function Set(h: Heap, p: Loc, v: Option<Node>): Heap {
    match p
    case Root => h.(root := v)
    case Link(n, d) => h.(lnk := h.lnk[(n, d) := v])
  }

  function BalOf(h: Heap, n: Node): Bal {
    if n in h.bal then h.bal[n] else Even
  }

  function SetBal(h: Heap, n: Node, b: Bal): Heap {
    h.(bal := h.bal[n := b])
  }

  ghost function Nodes(t: Tree): set<Node> {
    if t.Nil? then {} else Nodes(t.l) + {t.node} + Nodes(t.r)
  }

  /** No node occurs twice. */
  ghost predicate Distinct(t: Tree) {
    t.Bin? ==>
      t.node !in Nodes(t.l) && t.node !in Nodes(t.r) && Nodes(t.l) !! Nodes(t.r) && Distinct(t.l)
      && Distinct(t.r)
  }

  /** The memory below pointer `r` holds `t`. */
  ghost predicate Rep(h: Heap, r: Option<Node>, t: Tree)
    decreases t
  {
    if t.Nil? then r == None
    else
      && r == Some(t.node) && BalOf(h, t.node) == t.bal
      && Rep(h, Get(h, Link(t.node, false)), t.l) && Rep(h, Get(h, Link(t.node, true)), t.r)
  }

  ghost predicate SameAt(h: Heap, h': Heap, n: Node) {
    && BalOf(h', n) == BalOf(h, n) && Get(h', Link(n, false)) == Get(h, Link(n, false))
    && Get(h', Link(n, true)) == Get(h, Link(n, true))
  }

  ghost predicate SameOn(h: Heap, h': Heap, s: set<Node>) {
    forall n | n in s :: SameAt(h, h', n)
  }

  lemma {:induction false} Frame(h: Heap, h': Heap, r: Option<Node>, t: Tree)
    requires Rep(h, r, t) && SameOn(h, h', Nodes(t))
    ensures Rep(h', r, t)
    decreases t
  {
    if t.Bin? {
      assert SameAt(h, h', t.node);
      Frame(h, h', Get(h, Link(t.node, false)), t.l);
      Frame(h, h', Get(h, Link(t.node, true)), t.r);
    }
  }

  /** A pointer outside a tree: writing it leaves the tree's nodes alone. */
  ghost predicate Off(p: Loc, t: Tree) {
    p.Link? ==> p.n !in Nodes(t)
  }

  lemma Written(h: Heap, p: Loc, v: Option<Node>)
    ensures Get(Set(h, p, v), p) == v
    ensures forall q | q != p :: Get(Set(h, p, v), q) == Get(h, q)
    ensures forall n :: BalOf(Set(h, p, v), n) == BalOf(h, n)
  {
  }

  lemma WrittenBal(h: Heap, n: Node, b: Bal)
    ensures BalOf(SetBal(h, n, b), n) == b
    ensures forall m | m != n :: BalOf(SetBal(h, n, b), m) == BalOf(h, m)
    ensures forall q :: Get(SetBal(h, n, b), q) == Get(h, q)
  {
  }

  /** How a node and its sides are held, side by side. */
  lemma RepKids(h: Heap, r: Option<Node>, t: Tree, d: bool)
    requires t.Bin?
    ensures Rep(h, r, t) <==>
            (r == Some(t.node) && BalOf(h, t.node) == t.bal
             && Rep(h, Get(h, Link(t.node, d)), Kid(t, d)) && Rep(h, Get(h, Link(t.node, !d)), Kid(t, !d)))
  {
  }

  lemma DistinctKids(t: Tree, d: bool)
    requires t.Bin? && Distinct(t)
    ensures Distinct(Kid(t, d)) && Distinct(Kid(t, !d)) && t.node !in Nodes(Kid(t, d)) && t.node !in Nodes(Kid(t, !d))
    ensures Nodes(Kid(t, d)) !! Nodes(Kid(t, !d)) && Nodes(t) == Nodes(Kid(t, d)) + {t.node} + Nodes(Kid(t, !d))
  {
  }

  lemma RepMake(h: Heap, n: Node, b: Bal, d: bool, a: Tree, o: Tree)
    ensures Rep(h, Some(n), Make(n, b, d, a, o)) <==>
            BalOf(h, n) == b && Rep(h, Get(h, Link(n, d)), a) && Rep(h, Get(h, Link(n, !d)), o)
  {
  }

  lemma DistinctMake(n: Node, b: Bal, d: bool, a: Tree, o: Tree)
    ensures Distinct(Make(n, b, d, a, o)) <==>
            n !in Nodes(a) && n !in Nodes(o) && Nodes(a) !! Nodes(o) && Distinct(a) && Distinct(o)
    ensures Nodes(Make(n, b, d, a, o)) == Nodes(a) + {n} + Nodes(o)
  {
  }

  lemma RepRoot(h: Heap, r: Option<Node>, n: Node, b: Bal, d: bool, a: Tree, o: Tree)
    requires Rep(h, r, Make(n, b, d, a, o))
    ensures r == Some(n)
  {
  }

  // ------------------------------------------------------------- the new leaf

  /** Where the search for `x` ends. */
  ghost function LeafLoc(keys: Keys, t: Tree, x: Node, here: Loc): Loc {
    if t.Nil? then here else LeafLoc(keys, Kid(t, Side(keys, x, t.node)), x, Link(t.node, Side(keys, x, t.node)))
  }

  /** The pointer `insert` keeps to the lowest uneven node seen. */
  ghost function LowUneven(keys: Keys, t: Tree, x: Node, here: Loc, p: Loc): Loc {
    if t.Nil? then p
    else LowUneven(keys, Kid(t, Side(keys, x, t.node)), x, Link(t.node, Side(keys, x, t.node)), if t.bal != Even
                   then here else p)
  }

  /** Pointer to the subtree that `insert` rebalances, and that subtree. */
  ghost function FixLoc(keys: Keys, t: Tree, x: Node, here: Loc): Loc {
    if t.Bin? && Uneven(keys, Kid(t, Side(keys, x, t.node)), x)
    then FixLoc(keys, Kid(t, Side(keys, x, t.node)), x, Link(t.node, Side(keys, x, t.node))) else here
  }

  ghost function FixTree(keys: Keys, t: Tree, x: Node): Tree {
    if t.Bin? && Uneven(keys, Kid(t, Side(keys, x, t.node)), x)
    then FixTree(keys, Kid(t, Side(keys, x, t.node)), x) else t
  }

  lemma {:induction false} LowUnevenIs(keys: Keys, t: Tree, x: Node, here: Loc, p: Loc)
    ensures LowUneven(keys, t, x, here, p) == if Uneven(keys, t, x) then FixLoc(keys, t, x, here) else p
  {
    if t.Bin? {
      var d := Side(keys, x, t.node);
      LowUnevenIs(keys, Kid(t, d), x, Link(t.node, d), if t.bal != Even then here else p);
    }
  }

  lemma {:induction false} PutNodes(keys: Keys, t: Tree, x: Node)
    ensures Nodes(Put(keys, t, x)) == Nodes(t) + {x}
    ensures Distinct(t) && x !in Nodes(t) ==> Distinct(Put(keys, t, x))
  {
    if t.Bin? { PutNodes(keys, Kid(t, Side(keys, x, t.node)), x); }
  }

  /** Writing the new node where the search ends. */
  lemma {:induction false} PutRep(h: Heap, h': Heap, keys: Keys, t: Tree, x: Node, here: Loc)
    requires Rep(h, Get(h, here), t) && Distinct(t) && Off(here, t) && x !in Nodes(t)
    requires Get(h, Link(x, false)) == None && Get(h, Link(x, true)) == None && BalOf(h, x) == Even
    requires h' == Set(h, LeafLoc(keys, t, x, here), Some(x)) && here != Link(x, false) && here != Link(x, true)
    ensures Rep(h', Get(h', here), Put(keys, t, x))
    ensures forall q | Off(q, t) && q != here :: Get(h', q) == Get(h, q)
    ensures forall n :: BalOf(h', n) == BalOf(h, n)
  {
    Written(h, LeafLoc(keys, t, x, here), Some(x));
    if t.Bin? {
      var d := Side(keys, x, t.node);
      DistinctKids(t, d);
      RepKids(h, Get(h, here), t, d);
      PutRep(h, h', keys, Kid(t, d), x, Link(t.node, d));
      forall n | n in Nodes(Kid(t, !d)) ensures SameAt(h, h', n) {
        assert Off(Link(n, false), Kid(t, d)) && Off(Link(n, true), Kid(t, d));
      }
      Frame(h, h', Get(h, Link(t.node, !d)), Kid(t, !d));
      assert Off(Link(t.node, !d), Kid(t, d)) && Off(here, Kid(t, d));
      PutKids(keys, t, x);
      RepKids(h', Get(h', here), Put(keys, t, x), d);
    }
  }

  /** `h'` differs from `h` only in pointer `p` and in the nodes of `s`. */
  ghost predicate OnlyIn(h: Heap, h': Heap, p: Loc, s: set<Node>) {
    && (forall q | q != p && (q.Link? ==> q.n !in s) :: Get(h', q) == Get(h, q))
    && (forall n | n !in s :: BalOf(h', n) == BalOf(h, n))
  }

  lemma OnlyInAt(h: Heap, h': Heap, p: Loc, s: set<Node>, q: Loc)
    requires OnlyIn(h, h', p, s) && q != p && (q.Link? ==> q.n !in s)
    ensures Get(h', q) == Get(h, q)
  {
  }

  /** Trees away from the change stay. */
  lemma OnlyInFrame(h: Heap, h': Heap, p: Loc, s: set<Node>, r: Option<Node>, t: Tree)
    requires OnlyIn(h, h', p, s) && Rep(h, r, t) && Off(p, t) && Nodes(t) !! s
    ensures Rep(h', r, t)
  {
    hide Nodes;
    forall n | n in Nodes(t) ensures SameAt(h, h', n) {
      OnlyInAt(h, h', p, s, Link(n, false));
      OnlyInAt(h, h', p, s, Link(n, true));
    }
    Frame(h, h', r, t);
  }

  /** A node above the change: its side `d` holds the new subtree, all else is as before. */
  lemma Above(h: Heap, h': Heap, p: Loc, s: set<Node>, here: Loc, t: Tree, d: bool, k: Tree)
    requires t.Bin? && Rep(h, Get(h, here), t) && Distinct(t) && Off(here, t) && OnlyIn(h, h', p, s)
    requires s <= Nodes(Kid(t, d))
    requires p == Link(t.node, d) || (p.Link? && p.n in Nodes(Kid(t, d)))
    requires Rep(h', Get(h', Link(t.node, d)), k)
    ensures Rep(h', Get(h', here), Make(t.node, t.bal, d, k, Kid(t, !d)))
  {
    hide Rep, Nodes, Distinct, OnlyIn, Make;
    RepKids(h, Get(h, here), t, d);
    DistinctKids(t, d);
    OnlyInAt(h, h', p, s, here);
    OnlyInAt(h, h', p, s, Link(t.node, !d));
    OnlyInBal(h, h', p, s, t.node);
    OnlyInFrame(h, h', p, s, Get(h, Link(t.node, !d)), Kid(t, !d));
    RepMake(h', t.node, t.bal, d, k, Kid(t, !d));
  }

  lemma OnlyInBal(h: Heap, h': Heap, p: Loc, s: set<Node>, n: Node)
    requires OnlyIn(h, h', p, s) && n !in s
    ensures BalOf(h', n) == BalOf(h, n)
  {
  }

  /**
   The subtree to be rebalanced hangs at its pointer, and changing it there changes the whole tree as `Insert`
   says.
   */
  lemma {:induction false} InsertRep(h: Heap, h': Heap, keys: Keys, t: Tree, x: Node, here: Loc)
    requires Rep(h, Get(h, here), Put(keys, t, x)) && Distinct(Put(keys, t, x)) && Off(here, Put(keys, t, x))
    requires var s, p := FixTree(keys, t, x), FixLoc(keys, t, x, here);
             Rep(h', Get(h', p), Fix(keys, Put(keys, s, x), x)) && OnlyIn(h, h', p, Nodes(Put(keys, s, x)))
    ensures Rep(h', Get(h', here), Insert(keys, t, x))
  {
    hide Rep, Nodes, Distinct, OnlyIn, Make, Fix, Put;
    if t.Bin? && Uneven(keys, Kid(t, Side(keys, x, t.node)), x) {
      var d := Side(keys, x, t.node);
      var t1 := Put(keys, t, x);
      PutKids(keys, t, x);
      DistinctKids(t1, d);
      RepKids(h, Get(h, here), t1, d);
      InsertRep(h, h', keys, Kid(t, d), x, Link(t.node, d));
      FixTreeIn(keys, Kid(t, d), x, Link(t.node, d));
      PutNodes(keys, Kid(t, d), x);
      Above(h, h', FixLoc(keys, t, x, here), Nodes(Put(keys, FixTree(keys, t, x), x)), here, t1, d,
            Insert(keys, Kid(t, d), x));
    } else if t.Nil? {
      FixLeaf(keys, x);
    }
  }

  lemma FixLeaf(keys: Keys, x: Node)
    ensures Fix(keys, Put(keys, Nil, x), x) == Put(keys, Nil, x)
  {
  }

  lemma {:induction false} FixTreeIn(keys: Keys, t: Tree, x: Node, here: Loc)
    ensures Nodes(Put(keys, FixTree(keys, t, x), x)) <= Nodes(Put(keys, t, x))
    ensures FixLoc(keys, t, x, here) == here
            || (FixLoc(keys, t, x, here).Link? && FixLoc(keys, t, x, here).n in Nodes(t))
  {
    PutNodes(keys, t, x);
    if t.Bin? && Uneven(keys, Kid(t, Side(keys, x, t.node)), x) {
      var d := Side(keys, x, t.node);
      PutNodes(keys, Kid(t, d), x);
      FixTreeIn(keys, Kid(t, d), x, Link(t.node, d));
    }
  }

  // ------------------------------------------------------- leaning and rotating

  /** What the last loop of `insert` does to the balance fields. */
  ghost function LeanHeap(keys: Keys, h: Heap, v: Tree, x: Node): Heap
    decreases v
  {
    if v.Nil? || v.node == x then h
    else LeanHeap(keys, SetBal(h, v.node, Lean(Side(keys, x, v.node))), Kid(v, Side(keys, x, v.node)), x)
  }

  /** Only balance fields of `s` differ. */
  ghost predicate BalsIn(h: Heap, h': Heap, s: set<Node>) {
    (forall q :: Get(h', q) == Get(h, q)) && (forall n | n !in s :: BalOf(h', n) == BalOf(h, n))
  }

  lemma {:induction false} LeanRep(keys: Keys, h: Heap, r: Option<Node>, v: Tree, x: Node)
    requires Rep(h, r, v) && Distinct(v)
    ensures Rep(LeanHeap(keys, h, v, x), r, LeanTo(keys, v, x)) && BalsIn(h, LeanHeap(keys, h, v, x), Nodes(v))
    decreases v
  {
    hide Rep, Distinct, Nodes, Get, BalOf, Make;
    if v.Bin? && v.node != x {
      var d := Side(keys, x, v.node);
      var h1 := SetBal(h, v.node, Lean(d));
      var h' := LeanHeap(keys, h1, Kid(v, d), x);
      WrittenBal(h, v.node, Lean(d));
      RepKids(h, r, v, d);
      DistinctKids(v, d);
      BalsFrame(h, h1, {v.node}, Get(h, Link(v.node, d)), Kid(v, d));
      LeanRep(keys, h1, Get(h1, Link(v.node, d)), Kid(v, d), x);
      BalsFrame(h, h', {v.node} + Nodes(Kid(v, d)), Get(h, Link(v.node, !d)), Kid(v, !d));
      RepMake(h', v.node, Lean(d), d, LeanTo(keys, Kid(v, d), x), Kid(v, !d));
    }
  }

  lemma BalsFrame(h: Heap, h': Heap, s: set<Node>, r: Option<Node>, t: Tree)
    requires BalsIn(h, h', s) && Rep(h, r, t) && Nodes(t) !! s
    ensures Rep(h', r, t)
  {
    Frame(h, h', r, t);
  }

  /** Side `d` of a node has been leant. */
  lemma LeantSide(h: Heap, h': Heap, n: Node, b: Bal, d: bool, a: Tree, a': Tree, o: Tree, v: set<Node>)
    requires Rep(h, Some(n), Make(n, b, d, a, o)) && Distinct(Make(n, b, d, a, o)) && BalsIn(h, h', v) && v <= Nodes(a)
    requires Rep(h', Get(h', Link(n, d)), a')
    ensures Rep(h', Some(n), Make(n, b, d, a', o))
  {
    hide Rep, Distinct, Nodes, Get, BalOf;
    RepMake(h, n, b, d, a, o);
    DistinctKids(Make(n, b, d, a, o), d);
    BalsFrame(h, h', v, Get(h, Link(n, !d)), o);
    RepMake(h', n, b, d, a', o);
  }

  /** The pointer surgery of the single rotation at `p`, which lifts side `d`. */
  function RotateHeap(h: Heap, p: Loc, n: Node, y: Node, d: bool): Heap {
    var h1 := Set(h, p, Some(y));
    var h2 := Set(h1, Link(n, d), Get(h1, Link(y, !d)));
    var h3 := Set(h2, Link(y, !d), Some(n));
    SetBal(SetBal(h3, y, Even), n, Even)
  }

  /** What the single rotation leaves in every pointer and balance field. */
  lemma RotateReads(h: Heap, p: Loc, n: Node, y: Node, d: bool)
    requires n != y && (p.Link? ==> p.n != n && p.n != y)
    ensures var h' := RotateHeap(h, p, n, y, d);
            && Get(h', p) == Some(y) && Get(h', Link(n, d)) == Get(h, Link(y, !d)) && Get(h', Link(y, !d)) == Some(n)
            && (forall q | q != p && q != Link(n, d) && q != Link(y, !d) :: Get(h', q) == Get(h, q))
            && BalOf(h', n) == Even && BalOf(h', y) == Even
            && (forall m | m != n && m != y :: BalOf(h', m) == BalOf(h, m))
  {
  }

  lemma RotateRep(h: Heap, h': Heap, p: Loc, s: Tree, d: bool)
    requires s.Bin? && Kid(s, d).Bin? && Rep(h, Get(h, p), s) && Distinct(s) && Off(p, s)
    requires h' == RotateHeap(h, p, s.node, Kid(s, d).node, d)
    ensures var y := Kid(s, d);
            Rep(h', Get(h', p), Single(s.node, y.node, Even, Even, d, Kid(y, d), Kid(y, !d), Kid(s, !d)))
    ensures OnlyIn(h, h', p, Nodes(s)) && Get(h', Link(Kid(s, d).node, d)) == Get(h, Link(Kid(s, d).node, d))
  {
    hide Rep, Distinct, Nodes, Get, BalOf, RotateHeap, Make;
    var n, y := s.node, Kid(s, d);
    DistinctKids(s, d);
    DistinctKids(y, d);
    RepKids(h, Get(h, p), s, d);
    RepKids(h, Get(h, Link(n, d)), y, d);
    RotateReads(h, p, n, y.node, d);
    AwayRep(h, h', p, {n, y.node}, Get(h, Link(y.node, d)), Kid(y, d));
    AwayRep(h, h', p, {n, y.node}, Get(h, Link(y.node, !d)), Kid(y, !d));
    AwayRep(h, h', p, {n, y.node}, Get(h, Link(n, !d)), Kid(s, !d));
    RepMake(h', n, Even, d, Kid(y, !d), Kid(s, !d));
    RepMake(h', y.node, Even, d, Kid(y, d), Make(n, Even, d, Kid(y, !d), Kid(s, !d)));
  }

  lemma AwayRep(h: Heap, h': Heap, p: Loc, s: set<Node>, r: Option<Node>, t: Tree)
    requires Rep(h, r, t) && Off(p, t) && Nodes(t) !! s
    requires forall q | q != p && (q.Link? ==> q.n !in s) :: Get(h', q) == Get(h, q)
    requires forall n | n !in s :: BalOf(h', n) == BalOf(h, n)
    ensures Rep(h', r, t)
  {
    OnlyInFrame(h, h', p, s, r, t);
  }

  /** The pointer surgery of the double rotation. */
  function Rotate2Heap(h: Heap, p: Loc, n: Node, y: Node, z: Node, d: bool, b: Bal): Heap {
    var h1 := Set(h, p, Some(z));
    var h2 := Set(h1, Link(n, d), Get(h1, Link(z, !d)));
    var h3 := Set(h2, Link(y, !d), Get(h2, Link(z, d)));
    var h4 := Set(h3, Link(z, d), Some(y));
    var h5 := Set(h4, Link(z, !d), Some(n));
    var h6 := SetBal(SetBal(SetBal(h5, y, Even), n, Even), z, Even);
    if b == Even then h6 else SetBal(h6, if b.d != d then y else n, Lean(!b.d))
  }

  lemma Rotate2Reads(h: Heap, p: Loc, n: Node, y: Node, z: Node, d: bool, b: Bal)
    requires n != y && n != z && y != z && (p.Link? ==> p.n != n && p.n != y && p.n != z)
    ensures var h' := Rotate2Heap(h, p, n, y, z, d, b);
            && Get(h', p) == Some(z) && Get(h', Link(n, d)) == Get(h, Link(z, !d))
            && Get(h', Link(y, !d)) == Get(h, Link(z, d))
            && Get(h', Link(z, d)) == Some(y) && Get(h', Link(z, !d)) == Some(n)
            && Get(h', Link(n, !d)) == Get(h, Link(n, !d)) && Get(h', Link(y, d)) == Get(h, Link(y, d))
            && (forall q | q != p && (q.Link? ==> q.n != n && q.n != y && q.n != z) :: Get(h', q) == Get(h, q))
            && BalOf(h', n) == UpperBal(d, b) && BalOf(h', y) == LowerBal(d, b) && BalOf(h', z) == Even
            && (forall m | m != n && m != y && m != z :: BalOf(h', m) == BalOf(h, m))
  {
    hide Get, Set, BalOf, SetBal;
    Written(h, p, Some(z));
    var h1 := Set(h, p, Some(z));
    Written(h1, Link(n, d), Get(h1, Link(z, !d)));
    var h2 := Set(h1, Link(n, d), Get(h1, Link(z, !d)));
    Written(h2, Link(y, !d), Get(h2, Link(z, d)));
    var h3 := Set(h2, Link(y, !d), Get(h2, Link(z, d)));
    Written(h3, Link(z, d), Some(y));
    var h4 := Set(h3, Link(z, d), Some(y));
    Written(h4, Link(z, !d), Some(n));
    var h5 := Set(h4, Link(z, !d), Some(n));
    WrittenBal(h5, y, Even);
    WrittenBal(SetBal(h5, y, Even), n, Even);
    WrittenBal(SetBal(SetBal(h5, y, Even), n, Even), z, Even);
    var h6 := SetBal(SetBal(SetBal(h5, y, Even), n, Even), z, Even);
    if b.Lean? { WrittenBal(h6, if b.d != d then y else n, Lean(!b.d)); }
  }

  lemma Rotate2Rep(h: Heap, h': Heap, p: Loc, s: Tree, d: bool, b: Bal)
    requires s.Bin? && Kid(s, d).Bin? && Kid(Kid(s, d), !d).Bin? && Rep(h, Get(h, p), s) && Distinct(s) && Off(p, s)
    requires h' == Rotate2Heap(h, p, s.node, Kid(s, d).node, Kid(Kid(s, d), !d).node, d, b)
    ensures var y := Kid(s, d);
            var z := Kid(y, !d);
            && Rep(h', Get(h', p),
                   Double(s.node, y.node, z.node, UpperBal(d, b), LowerBal(d, b), d, Kid(y, d), Kid(z, d), Kid(z, !d),
                          Kid(s, !d)))
            && OnlyIn(h, h', p, Nodes(s))
  {
    hide Rep, Distinct, Nodes, Get, BalOf, Rotate2Heap, Make, UpperBal, LowerBal;
    var n, y := s.node, Kid(s, d);
    var z := Kid(y, !d);
    DistinctKids(s, d);
    DistinctKids(y, d);
    DistinctKids(z, d);
    RepKids(h, Get(h, p), s, d);
    RepKids(h, Get(h, Link(n, d)), y, d);
    RepKids(h, Get(h, Link(y.node, !d)), z, d);
    Rotate2Reads(h, p, n, y.node, z.node, d, b);
    var w := {n, y.node, z.node};
    AwayRep(h, h', p, w, Get(h, Link(y.node, d)), Kid(y, d));
    AwayRep(h, h', p, w, Get(h, Link(z.node, d)), Kid(z, d));
    AwayRep(h, h', p, w, Get(h, Link(z.node, !d)), Kid(z, !d));
    AwayRep(h, h', p, w, Get(h, Link(n, !d)), Kid(s, !d));
    RepMake(h', y.node, LowerBal(d, b), d, Kid(y, d), Kid(z, d));
    RepMake(h', n, UpperBal(d, b), d, Kid(z, !d), Kid(s, !d));
    RepMake(h', z.node, Even, d, Make(y.node, LowerBal(d, b), d, Kid(y, d), Kid(z, d)),
            Make(n, UpperBal(d, b), d, Kid(z, !d), Kid(s, !d)));
  }
}
