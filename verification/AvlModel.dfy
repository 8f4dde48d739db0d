/**
 Height-balanced search trees as values: what inserting and removing a range do to order, balance
 and the set of nodes.
 */
module AvlModel {
  import opened Bits
  import opened Derivation
  import opened MappingModel

  type Keys = map<Node, Info>

  /** The balance field: both sides equally high, or side `d` higher by one. */
  datatype Bal = Even | Lean(d: bool)

  datatype Tree = Nil | Bin(node: Node, bal: Bal, l: Tree, r: Tree)

  function Kid(t: Tree, d: bool): Tree
    requires t.Bin?
  {
    if d then t.r else t.l
  }

  /** The tree whose side `d` is `a` and whose other side is `o`. */
  function Make(n: Node, b: Bal, d: bool, a: Tree, o: Tree): Tree {
    if d then Bin(n, b, o, a) else Bin(n, b, a, o)
  }

  function Inorder(t: Tree): seq<Node> {
    if t.Nil? then [] else Inorder(t.l) + [t.node] + Inorder(t.r)
  }

  function Height(t: Tree): nat {
    if t.Nil? then 0 else 1 + Max(Height(t.l), Height(t.r))
  }

  /** Every balance field tells the truth, so sides differ by at most one. */
  ghost predicate Balanced(t: Tree) {
    t.Bin? ==> Balanced(t.l) && Balanced(t.r) && Tells(t.bal, Height(t.l), Height(t.r))
  }

  ghost predicate Tells(b: Bal, l: nat, r: nat) {
    match b
    case Even => l == r
    case Lean(d) => if d then r == l + 1 else l == r + 1
  }

  function Base(keys: Keys, n: Node): nat {
    if n in keys then keys[n].base else 0
  }

  /** `larger`: the side of `n` on which `x` belongs. */
  predicate Side(keys: Keys, x: Node, n: Node) {
    Base(keys, x) > Base(keys, n)
  }

  /** The nodes stand in strictly ascending order. */
  ghost predicate Ascending(keys: Keys, s: seq<Node>) {
    forall i, j | 0 <= i < j < |s| :: Base(keys, s[i]) < Base(keys, s[j])
  }

  // ------------------------------------------------------------------- insert

  /** The new node as a leaf, balance fields untouched. */
  function Put(keys: Keys, t: Tree, x: Node): Tree {
    if t.Nil? then Bin(x, Even, Nil, Nil)
    else var d := Side(keys, x, t.node); Make(t.node, t.bal, d, Put(keys, Kid(t, d), x), Kid(t, !d))
  }

  /** An uneven node stands on the way to `x`. */
  predicate Uneven(keys: Keys, t: Tree, x: Node) {
    t.Bin? && (t.bal != Even || Uneven(keys, Kid(t, Side(keys, x, t.node)), x))
  }

  /** On the way to `x`, every node leans towards it. */
  function LeanTo(keys: Keys, t: Tree, x: Node): Tree {
    if t.Nil? || t.node == x then t
    else var d := Side(keys, x, t.node); Make(t.node, Lean(d), d, LeanTo(keys, Kid(t, d), x), Kid(t, !d))
  }

  /** The single rotation that lifts `y`, which stands on side `d` of `n`. */
  function Single(n: Node, y: Node, bn: Bal, bm: Bal, d: bool, a: Tree, b: Tree, c: Tree): Tree {
    Make(y, bm, d, a, Make(n, bn, d, b, c))
  }

  /** The double rotation that lifts `z`, the inner child of `y`, which stands on side `d` of `n`. */
  function Double(n: Node, y: Node, z: Node, bn: Bal, bm: Bal, d: bool, a: Tree, b: Tree, c: Tree, e: Tree): Tree {
    Make(z, Even, d, Make(y, bm, d, a, b), Make(n, bn, d, c, e))
  }

  /** The balance fields after a double rotation, where the lifted node leant to `b`. */
  function UpperBal(d: bool, b: Bal): Bal { if b == Lean(d) then Lean(!d) else Even }

  function LowerBal(d: bool, b: Bal): Bal { if b == Lean(!d) then Lean(d) else Even }

  /** The rotations of the insertion of `x`: side `d` of `s` has become too high. */
  function Lift(keys: Keys, s: Tree, d: bool, x: Node): Tree
    requires s.Bin?
  {
    var y := Kid(s, d);
    if y.Nil? then s
    else if Side(keys, x, y.node) == d then
      Single(s.node, y.node, Even, Even, d, LeanTo(keys, Kid(y, d), x), Kid(y, !d), Kid(s, !d))
    else
      var z := Kid(y, !d);
      if z.Nil? then s
      else
        var b := if z.node == x then Even else Lean(Side(keys, x, z.node));
        Double(s.node, y.node, z.node, UpperBal(d, b), LowerBal(d, b), d, Kid(y, d),
               if b == Lean(d) then LeanTo(keys, Kid(z, d), x) else Kid(z, d),
               if b == Lean(!d) then LeanTo(keys, Kid(z, !d), x) else Kid(z, !d), Kid(s, !d))
  }

  /** What becomes of the subtree at the lowest uneven node, with the new leaf already in it. */
  function Fix(keys: Keys, s: Tree, x: Node): Tree
    requires s.Bin?
  {
    var d := Side(keys, x, s.node);
    if s.bal == Even then LeanTo(keys, s, x)
    else if s.bal != Lean(d) then Make(s.node, Even, d, LeanTo(keys, Kid(s, d), x), Kid(s, !d))
    else Lift(keys, s, d, x)
  }

  /** `insert`: rebalance at the lowest uneven node on the way, or lean the whole way. */
  function Insert(keys: Keys, t: Tree, x: Node): Tree {
    if t.Nil? then Put(keys, t, x)
    else
      var d := Side(keys, x, t.node);
      if Uneven(keys, Kid(t, d), x) then Make(t.node, t.bal, d, Insert(keys, Kid(t, d), x), Kid(t, !d))
      else Fix(keys, Put(keys, t, x), x)
  }

  lemma {:induction false} LeanToOrder(keys: Keys, t: Tree, x: Node)
    ensures Inorder(LeanTo(keys, t, x)) == Inorder(t)
  {
    if t.Bin? && t.node != x { LeanToOrder(keys, Kid(t, Side(keys, x, t.node)), x); }
  }

  /** All path nodes even: after the lean the tree is higher by one and balanced. */
  lemma {:induction false} LeanToBalanced(keys: Keys, t: Tree, x: Node)
    requires Balanced(t) && !Uneven(keys, t, x) && x !in Inorder(t)
    ensures Balanced(LeanTo(keys, Put(keys, t, x), x)) && Height(LeanTo(keys, Put(keys, t, x), x)) == Height(t) + 1
  {
    if t.Bin? {
      var d := Side(keys, x, t.node);
      assert t.node in Inorder(t);
      LeanToBalanced(keys, Kid(t, d), x);
    }
  }

  lemma MakeKids(t: Tree, d: bool)
    requires t.Bin?
    ensures t == Make(t.node, t.bal, d, Kid(t, d), Kid(t, !d))
  {
  }

  /** Order is a matter of the sides' orders only. */
  lemma MakeOrder(n: Node, b: Bal, b': Bal, d: bool, a: Tree, a': Tree, o: Tree, o': Tree)
    requires Inorder(a) == Inorder(a') && Inorder(o) == Inorder(o')
    ensures Inorder(Make(n, b, d, a, o)) == Inorder(Make(n, b', d, a', o'))
  {
  }

  lemma SingleOrder(n: Node, y: Node, bn: Bal, bm: Bal, bn': Bal, bm': Bal, d: bool, a: Tree, b: Tree, c: Tree)
    ensures Inorder(Single(n, y, bn, bm, d, a, b, c)) == Inorder(Make(n, bn', d, Make(y, bm', d, a, b), c))
  {
    var i, j, k := Inorder(a), Inorder(b), Inorder(c);
    if d {
      assert Inorder(Make(y, bm', d, a, b)) == j + [y] + i;
      assert Inorder(Make(n, bn, d, b, c)) == k + [n] + j;
      assert k + [n] + (j + [y] + i) == (k + [n] + j) + [y] + i;
    } else {
      assert Inorder(Make(y, bm', d, a, b)) == i + [y] + j;
      assert Inorder(Make(n, bn, d, b, c)) == j + [n] + k;
      assert i + [y] + (j + [n] + k) == (i + [y] + j) + [n] + k;
    }
  }

  /** A double rotation is two single ones. */
  lemma DoubleOrder(n: Node, y: Node, z: Node, bn: Bal, bm: Bal, bn': Bal, bm': Bal, bz': Bal, d: bool, a: Tree,
                    b: Tree, c: Tree, e: Tree)
    ensures Inorder(Double(n, y, z, bn, bm, d, a, b, c, e))
         == Inorder(Make(n, bn', d, Make(y, bm', d, a, Make(z, bz', d, b, c)), e))
  {
    var low := Make(y, bm, d, a, b);
    SingleOrder(n, z, bn, Even, bn', Even, d, low, c, e);
    SingleOrder(y, z, bm', Even, Even, bz', !d, c, b, a);
    FlipMake(z, bz', d, b, c);
    FlipMake(y, bm', d, a, Make(z, bz', d, b, c));
    FlipMake(y, bm', d, a, b);
    FlipMake(z, Even, d, Make(y, bm', d, a, b), c);
    MakeOrder(z, Even, Even, d, low, Make(y, bm', d, a, b), c, c);
    MakeOrder(n, bn', bn', d, Make(z, Even, d, low, c), Make(y, bm', d, a, Make(z, bz', d, b, c)), e, e);
  }

  lemma FlipMake(n: Node, b: Bal, d: bool, a: Tree, o: Tree)
    ensures Make(n, b, d, a, o) == Make(n, b, !d, o, a)
  {
  }

  lemma LiftOrder(keys: Keys, s: Tree, d: bool, x: Node)
    requires s.Bin?
    ensures Inorder(Lift(keys, s, d, x)) == Inorder(s)
  {
    hide Make, Inorder, Single, Double, LeanTo, UpperBal, LowerBal;
    var y := Kid(s, d);
    MakeKids(s, d);
    if y.Bin? {
      MakeKids(y, d);
      if Side(keys, x, y.node) == d {
        var a := LeanTo(keys, Kid(y, d), x);
        LeanToOrder(keys, Kid(y, d), x);
        SingleOrder(s.node, y.node, Even, Even, s.bal, y.bal, d, a, Kid(y, !d), Kid(s, !d));
        MakeOrder(y.node, y.bal, y.bal, d, a, Kid(y, d), Kid(y, !d), Kid(y, !d));
        MakeOrder(s.node, s.bal, s.bal, d, Make(y.node, y.bal, d, a, Kid(y, !d)), y, Kid(s, !d), Kid(s, !d));
      } else if Kid(y, !d).Bin? {
        var z := Kid(y, !d);
        MakeKids(z, d);
        var b := if z.node == x then Even else Lean(Side(keys, x, z.node));
        var i := if b == Lean(d) then LeanTo(keys, Kid(z, d), x) else Kid(z, d);
        var j := if b == Lean(!d) then LeanTo(keys, Kid(z, !d), x) else Kid(z, !d);
        LeanToOrder(keys, Kid(z, d), x);
        LeanToOrder(keys, Kid(z, !d), x);
        DoubleOrder(s.node, y.node, z.node, UpperBal(d, b), LowerBal(d, b), s.bal, y.bal, z.bal, d, Kid(y, d), i, j,
                    Kid(s, !d));
        MakeOrder(z.node, z.bal, z.bal, d, i, Kid(z, d), j, Kid(z, !d));
        MakeOrder(y.node, y.bal, y.bal, d, Kid(y, d), Kid(y, d), Make(z.node, z.bal, d, i, j), z);
        MakeOrder(s.node, s.bal, s.bal, d, Make(y.node, y.bal, d, Kid(y, d), Make(z.node, z.bal, d, i, j)), y,
                  Kid(s, !d), Kid(s, !d));
      }
    }
  }

  lemma FixOrder(keys: Keys, s: Tree, x: Node)
    requires s.Bin?
    ensures Inorder(Fix(keys, s, x)) == Inorder(s)
  {
    hide Inorder, Lift, Make;
    var d := Side(keys, x, s.node);
    LeanToOrder(keys, s, x);
    LeanToOrder(keys, Kid(s, d), x);
    LiftOrder(keys, s, d, x);
    MakeKids(s, d);
    MakeOrder(s.node, s.bal, Even, d, Kid(s, d), LeanTo(keys, Kid(s, d), x), Kid(s, !d), Kid(s, !d));
  }

  /** The lowest uneven node soaks up the extra height. */
  lemma FixBalanced(keys: Keys, s: Tree, x: Node)
    requires s.Bin? && Balanced(s) && s.bal != Even && !Uneven(keys, Kid(s, Side(keys, x, s.node)), x)
    requires x !in Inorder(s)
    ensures Balanced(Fix(keys, Put(keys, s, x), x)) && Height(Fix(keys, Put(keys, s, x), x)) == Height(s)
  {
    var d := Side(keys, x, s.node);
    if s.bal == Lean(d) {
      LiftBalanced(keys, s, d, x);
    } else {
      LeanToBalanced(keys, Kid(s, d), x);
    }
  }

  /** Where the new leaf goes. */
  lemma PutKids(keys: Keys, t: Tree, x: Node)
    requires t.Bin?
    ensures var d, t' := Side(keys, x, t.node), Put(keys, t, x);
            t'.Bin? && t'.node == t.node && t'.bal == t.bal && Kid(t', d) == Put(keys, Kid(t, d), x)
              && Kid(t', !d) == Kid(t, !d)
  {
  }

  /** Balance of a node, side by side. */
  lemma MakeBalanced(n: Node, b: Bal, d: bool, a: Tree, o: Tree)
    requires Balanced(a) && Balanced(o) && Height(a) <= Height(o) + 1 && Height(o) <= Height(a) + 1
    requires b == if Height(a) == Height(o) then Even else if Height(a) > Height(o) then Lean(d) else Lean(!d)
    ensures Balanced(Make(n, b, d, a, o)) && Height(Make(n, b, d, a, o)) == 1 + Max(Height(a), Height(o))
  {
  }

  lemma KidsBalanced(t: Tree, d: bool)
    requires t.Bin? && Balanced(t)
    ensures Balanced(Kid(t, d)) && Balanced(Kid(t, !d)) && Height(t) == 1 + Max(Height(Kid(t, d)), Height(Kid(t, !d)))
    ensures t.bal == Even <==> Height(Kid(t, d)) == Height(Kid(t, !d))
    ensures t.bal == Lean(d) <==> Height(Kid(t, d)) == Height(Kid(t, !d)) + 1
    ensures t.bal == Lean(!d) <==> Height(Kid(t, !d)) == Height(Kid(t, d)) + 1
  {
  }

  lemma LiftBalanced(keys: Keys, s: Tree, d: bool, x: Node)
    requires s.Bin? && Balanced(s) && s.bal == Lean(d) && d == Side(keys, x, s.node) && !Uneven(keys, Kid(s, d), x)
    requires x !in Inorder(s)
    ensures Balanced(Lift(keys, Put(keys, s, x), d, x)) && Height(Lift(keys, Put(keys, s, x), d, x)) == Height(s)
  {
    hide Balanced, Make, LeanTo, Put, Inorder;
    var y := Kid(s, d);
    KidsBalanced(s, d);
    EmptyHeight(y);
    KidsBalanced(y, d);
    PutKids(keys, s, x);
    PutKids(keys, y, x);
    var e := Side(keys, x, y.node);
    KidNodes(s, d);
    KidNodes(y, e);
    LeanToBalanced(keys, Kid(y, e), x);
    if e == d {
      var a := LeanTo(keys, Put(keys, Kid(y, d), x), x);
      MakeBalanced(s.node, Even, d, Kid(y, !d), Kid(s, !d));
      MakeBalanced(y.node, Even, d, a, Make(s.node, Even, d, Kid(y, !d), Kid(s, !d)));
    } else {
      LiftInner(keys, s, y, d, x);
    }
  }

  lemma EmptyHeight(t: Tree)
    ensures t.Nil? <==> Height(t) == 0
  {
  }

  lemma LiftInner(keys: Keys, s: Tree, y: Tree, d: bool, x: Node)
    requires s.Bin? && y.Bin? && Kid(s, d) == y && Balanced(s) && Balanced(y) && x !in Inorder(s) && x !in Inorder(y)
    requires y.bal == Even && s.bal == Lean(d)
    requires d == Side(keys, x, s.node) && d != Side(keys, x, y.node) && !Uneven(keys, Kid(y, !d), x)
    ensures Balanced(Lift(keys, Put(keys, s, x), d, x)) && Height(Lift(keys, Put(keys, s, x), d, x)) == Height(s)
  {
    hide Balanced, Make, LeanTo, Put, Inorder, Lift;
    KidsBalanced(s, d);
    KidsBalanced(y, d);
    KidNodes(y, !d);
    if Kid(y, !d).Nil? { LiftLeaf(keys, s, y, d, x); } else { LiftDeep(keys, s, y, Kid(y, !d), d, x); }
  }

  /** The inner grandchild is the new leaf. */
  lemma LiftLeaf(keys: Keys, s: Tree, y: Tree, d: bool, x: Node)
    requires s.Bin? && y.Bin? && Kid(s, d) == y && Kid(y, !d).Nil?
    requires Height(Kid(y, d)) == Height(Kid(y, !d)) && Height(y) == Height(Kid(s, !d)) + 1
    requires Height(s) == Height(y) + 1
    requires Height(y) == 1 + Height(Kid(y, d))
    requires d == Side(keys, x, s.node) && d != Side(keys, x, y.node)
    ensures Balanced(Lift(keys, Put(keys, s, x), d, x)) && Height(Lift(keys, Put(keys, s, x), d, x)) == Height(s)
  {
    hide Balanced, Make, LeanTo, Put, Inorder;
    PutKids(keys, s, x);
    PutKids(keys, y, x);
    PutNil(keys, x);
    EmptyHeight(Kid(y, !d));
    EmptyHeight(Kid(y, d));
    EmptyHeight(Kid(s, !d));
    MakeBalanced(y.node, Even, d, Nil, Nil);
    MakeBalanced(s.node, Even, d, Nil, Nil);
    MakeBalanced(x, Even, d, Make(y.node, Even, d, Nil, Nil), Make(s.node, Even, d, Nil, Nil));
  }

  /** The new leaf stands below the inner grandchild `z`. */
  lemma LiftDeep(keys: Keys, s: Tree, y: Tree, z: Tree, d: bool, x: Node)
    requires s.Bin? && y.Bin? && z.Bin? && Kid(s, d) == y && Kid(y, !d) == z && x !in Inorder(z) && !Uneven(keys, z, x)
    requires Balanced(Kid(s, !d)) && Balanced(Kid(y, d)) && Balanced(z)
    requires Height(Kid(y, d)) == Height(z) && Height(y) == Height(Kid(s, !d)) + 1 && Height(s) == Height(y) + 1
    requires Height(y) == 1 + Height(z)
    requires d == Side(keys, x, s.node) && d != Side(keys, x, y.node)
    ensures Balanced(Lift(keys, Put(keys, s, x), d, x)) && Height(Lift(keys, Put(keys, s, x), d, x)) == Height(s)
  {
    hide Balanced, Make, LeanTo, Put, Inorder;
    PutKids(keys, s, x);
    PutKids(keys, y, x);
    PutKids(keys, z, x);
    var e := Side(keys, x, z.node);
    KidNodes(z, e);
    KidsBalanced(z, d);
    LeanToBalanced(keys, Kid(z, e), x);
    var g := LeanTo(keys, Put(keys, Kid(z, e), x), x);
    var i, j := if e == d then g else Kid(z, d), if e == d then Kid(z, !d) else g;
    MakeBalanced(y.node, LowerBal(d, Lean(e)), d, Kid(y, d), i);
    MakeBalanced(s.node, UpperBal(d, Lean(e)), d, j, Kid(s, !d));
    MakeBalanced(z.node, Even, d, Make(y.node, LowerBal(d, Lean(e)), d, Kid(y, d), i),
                 Make(s.node, UpperBal(d, Lean(e)), d, j, Kid(s, !d)));
  }

  lemma PutNil(keys: Keys, x: Node)
    ensures Put(keys, Nil, x) == Bin(x, Even, Nil, Nil) && Kid(Put(keys, Nil, x), true).Nil?
    ensures Kid(Put(keys, Nil, x), false).Nil? && Height(Nil) == 0 && Balanced(Nil)
  {
  }

  lemma KidNodes(t: Tree, d: bool)
    requires t.Bin?
    ensures t.node in Inorder(t) && forall n | n in Inorder(Kid(t, d)) :: n in Inorder(t)
  {
  }

  /**
   The insertion in full: order as with a plain leaf, balance kept, height up by one only if no node on the way
   leant.
   */
  lemma {:induction false} InsertFacts(keys: Keys, t: Tree, x: Node)
    requires Balanced(t) && x !in Inorder(t)
    ensures Inorder(Insert(keys, t, x)) == Inorder(Put(keys, t, x))
    ensures Balanced(Insert(keys, t, x))
    ensures Height(Insert(keys, t, x)) == Height(t) + if Uneven(keys, t, x) then 0 else 1
  {
    if t.Bin? {
      var d := Side(keys, x, t.node);
      KidNodes(t, d);
      if Uneven(keys, Kid(t, d), x) {
        InsertFacts(keys, Kid(t, d), x);
      } else {
        FixOrder(keys, Put(keys, t, x), x);
        if t.bal == Even { LeanToBalanced(keys, t, x); } else { FixBalanced(keys, t, x); }
      }
    }
  }

  /** A leaf put where the search ends keeps the order. */
  lemma {:induction false} PutOrder(keys: Keys, t: Tree, x: Node)
    requires Ascending(keys, Inorder(t)) && forall n | n in Inorder(t) :: Base(keys, n) != Base(keys, x)
    ensures Ascending(keys, Inorder(Put(keys, t, x)))
    ensures forall n :: n in Inorder(Put(keys, t, x)) <==> n in Inorder(t) || n == x
  {
    if t.Bin? {
      var d := Side(keys, x, t.node);
      KidNodes(t, d);
      AscendingKids(keys, t);
      PutOrder(keys, Kid(t, d), x);
      var t' := Put(keys, t, x);
      AscendingBin(keys, t');
    }
  }

  lemma AscendingKids(keys: Keys, t: Tree)
    requires t.Bin? && Ascending(keys, Inorder(t))
    ensures Ascending(keys, Inorder(t.l)) && Ascending(keys, Inorder(t.r))
    ensures forall n | n in Inorder(t.l) :: Base(keys, n) < Base(keys, t.node)
    ensures forall n | n in Inorder(t.r) :: Base(keys, t.node) < Base(keys, n)
  {
    AscendingParts(keys, Inorder(t.l), t.node, Inorder(t.r));
  }

  lemma AscendingParts(keys: Keys, a: seq<Node>, n: Node, b: seq<Node>)
    requires Ascending(keys, a + [n] + b)
    ensures Ascending(keys, a) && Ascending(keys, b)
    ensures (forall x | x in a :: Base(keys, x) < Base(keys, n)) && forall x | x in b :: Base(keys, n) < Base(keys, x)
  {
    hide Base;
    var s, k := a + [n] + b, |a| + 1;
    assert s[|a|] == n;
    forall i | 0 <= i < |a| ensures s[i] == a[i] && Base(keys, a[i]) < Base(keys, n) { assert s[i] == a[i]; }
    forall i | 0 <= i < |b| ensures s[k + i] == b[i] && Base(keys, n) < Base(keys, b[i]) { assert s[k + i] == b[i]; }
    forall i, j | 0 <= i < j < |b| ensures Base(keys, b[i]) < Base(keys, b[j]) {
      assert Base(keys, s[k + i]) < Base(keys, s[k + j]);
    }
  }

  lemma AscendingBin(keys: Keys, t: Tree)
    requires t.Bin? && Ascending(keys, Inorder(t.l)) && Ascending(keys, Inorder(t.r))
    requires forall n | n in Inorder(t.l) :: Base(keys, n) < Base(keys, t.node)
    requires forall n | n in Inorder(t.r) :: Base(keys, t.node) < Base(keys, n)
    ensures Ascending(keys, Inorder(t))
  {
    var s, k := Inorder(t), |Inorder(t.l)|;
    forall i, j | 0 <= i < j < |s| ensures Base(keys, s[i]) < Base(keys, s[j]) {
      if i < k { assert s[i] in Inorder(t.l); }
      if j > k { assert s[j] in Inorder(t.r); }
    }
  }
}
