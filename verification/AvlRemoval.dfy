/**
 Removal from a height-balanced tree: the last node on the way is cut out, then takes the place of the removed
 one.
 */
module AvlRemoval {
  import opened Rings
  import opened Derivation
  import opened AvlModel

  /** Node `t` soaks up a loss of height on side `d`. */
  predicate Absorbs(t: Tree, d: bool)
    requires t.Bin?
  {
    t.bal == Even || (t.bal == Lean(!d) && Kid(t, !d).Bin? && Kid(t, !d).bal == Even)
  }

  /** Some node on the way, other than the last, soaks up the loss. */
  predicate Stops(keys: Keys, t: Tree, x: Node) {
    t.Bin? && var d := Side(keys, x, t.node); Kid(t, d).Bin? && (Absorbs(t, d) || Stops(keys, Kid(t, d), x))
  }

  /** The node at which the way to `x`, and on to its predecessor, ends. */
  function Last(keys: Keys, t: Tree, x: Node): Node
    requires t.Bin?
  {
    if Kid(t, Side(keys, x, t.node)).Nil? then t.node else Last(keys, Kid(t, Side(keys, x, t.node)), x)
  }

  predicate Rotates(t: Tree, d: bool)
    requires t.Bin?
  {
    t.bal == Lean(!d) && Kid(t, !d).Bin? && (Kid(t, !d).bal == Lean(d) ==> Kid(Kid(t, !d), d).Bin?)
  }

  /** The balance fields after a single rotation, where the lifted node had balance `b`. */
  function DownBal(d: bool, b: Bal): Bal { if b == Even then Lean(!d) else Even }

  function TopBal(d: bool, b: Bal): Bal { if b == Even then Lean(d) else Even }

  /** Side `d` of `t` has become `k`, lower by one: rebalance. */
  function Settle(t: Tree, d: bool, k: Tree): Tree
    requires t.Bin?
  {
    var y := Kid(t, !d);
    if t.bal == Even then Make(t.node, Lean(!d), d, k, y)
    else if !Rotates(t, d) then Make(t.node, Even, d, k, y)
    else if y.bal == Lean(d) then
      var z := Kid(y, d);
      Double(t.node, y.node, z.node, UpperBal(!d, z.bal), LowerBal(!d, z.bal), !d, Kid(y, !d), Kid(z, !d), Kid(z, d), k)
    else Single(t.node, y.node, DownBal(d, y.bal), TopBal(d, y.bal), !d, Kid(y, !d), Kid(y, d), k)
  }

  /** Cut out the last node and rebalance all the way. */
  function CutAll(keys: Keys, t: Tree, x: Node): Tree
    requires t.Bin?
  {
    var d := Side(keys, x, t.node);
    if Kid(t, d).Nil? then Kid(t, !d) else Settle(t, d, CutAll(keys, Kid(t, d), x))
  }

  /** Cut out the last node and rebalance from the lowest node that soaks up the loss. */
  function Cut(keys: Keys, t: Tree, x: Node): Tree
    requires t.Bin?
  {
    var d := Side(keys, x, t.node);
    if Stops(keys, Kid(t, d), x) then Make(t.node, t.bal, d, Cut(keys, Kid(t, d), x), Kid(t, !d))
    else CutAll(keys, t, x)
  }

  /** Node `y` in the place of `x`. */
  function Rename(t: Tree, x: Node, y: Node): Tree {
    if t.Nil? then Nil else Bin(if t.node == x then y else t.node, t.bal, Rename(t.l, x, y), Rename(t.r, x, y))
  }

  /** `remove`. */
  function Remove(keys: Keys, t: Tree, x: Node): Tree
    requires t.Bin?
  {
    Rename(Cut(keys, t, x), x, Last(keys, t, x))
  }

  lemma SettleBalanced(t: Tree, d: bool, k: Tree)
    requires t.Bin? && Balanced(t) && Balanced(k) && Height(k) + 1 == Height(Kid(t, d))
    ensures Balanced(Settle(t, d, k)) && Height(Settle(t, d, k)) + (if Absorbs(t, d) then 0 else 1) == Height(t)
  {
    hide Balanced, Make;
    var n, y := t.node, Kid(t, !d);
    KidsBalanced(t, d);
    EmptyHeight(y);
    if t.bal == Even {
      MakeBalanced(n, Lean(!d), d, k, y);
    } else if t.bal == Lean(d) {
      MakeBalanced(n, Even, d, k, y);
    } else {
      KidsBalanced(y, d);
      EmptyHeight(Kid(y, d));
      FlipMake(n, Even, d, k, y);
      if y.bal == Lean(d) {
        SettleDouble(t, d, k);
      } else {
        MakeBalanced(n, DownBal(d, y.bal), !d, Kid(y, d), k);
        MakeBalanced(y.node, TopBal(d, y.bal), !d, Kid(y, !d), Make(n, DownBal(d, y.bal), !d, Kid(y, d), k));
      }
    }
  }

  lemma SettleDouble(t: Tree, d: bool, k: Tree)
    requires t.Bin? && Balanced(t) && Balanced(k) && Height(k) + 1 == Height(Kid(t, d)) && Rotates(t, d)
    requires Kid(t, !d).bal == Lean(d)
    ensures Balanced(Settle(t, d, k)) && Height(Settle(t, d, k)) + 1 == Height(t)
  {
    hide Balanced, Make;
    var n, y := t.node, Kid(t, !d);
    var z := Kid(y, d);
    KidsBalanced(t, d);
    KidsBalanced(y, d);
    KidsBalanced(z, d);
    var ub, lb := UpperBal(!d, z.bal), LowerBal(!d, z.bal);
    MakeBalanced(y.node, lb, !d, Kid(y, !d), Kid(z, !d));
    MakeBalanced(n, ub, !d, Kid(z, d), k);
    MakeBalanced(z.node, Even, !d, Make(y.node, lb, !d, Kid(y, !d), Kid(z, !d)), Make(n, ub, !d, Kid(z, d), k));
  }

  lemma {:induction false} CutAllBalanced(keys: Keys, t: Tree, x: Node)
    requires t.Bin? && Balanced(t) && !Stops(keys, Kid(t, Side(keys, x, t.node)), x)
    ensures Balanced(CutAll(keys, t, x))
    ensures Height(CutAll(keys, t, x)) + (if Stops(keys, t, x) then 0 else 1) == Height(t)
  {
    hide Balanced, Settle;
    var d := Side(keys, x, t.node);
    KidsBalanced(t, d);
    EmptyHeight(Kid(t, d));
    if Kid(t, d).Bin? {
      CutAllBalanced(keys, Kid(t, d), x);
      SettleBalanced(t, d, CutAll(keys, Kid(t, d), x));
    }
  }

  lemma {:induction false} CutBalanced(keys: Keys, t: Tree, x: Node)
    requires t.Bin? && Balanced(t)
    ensures Balanced(Cut(keys, t, x)) && Height(Cut(keys, t, x)) + (if Stops(keys, t, x) then 0 else 1) == Height(t)
  {
    hide Balanced, CutAll, Make;
    var d := Side(keys, x, t.node);
    if Stops(keys, Kid(t, d), x) {
      KidsBalanced(t, d);
      CutBalanced(keys, Kid(t, d), x);
      MakeBalanced(t.node, t.bal, d, Cut(keys, Kid(t, d), x), Kid(t, !d));
    } else {
      CutAllBalanced(keys, t, x);
    }
  }

  lemma SettleOrder(t: Tree, d: bool, k: Tree)
    requires t.Bin?
    ensures Inorder(Settle(t, d, k)) == Inorder(Make(t.node, t.bal, d, k, Kid(t, !d)))
  {
    hide Inorder, Make, Single, Double, UpperBal, LowerBal, DownBal, TopBal;
    var n, y := t.node, Kid(t, !d);
    if !Rotates(t, d) {
      MakeOrder(n, t.bal, Even, d, k, k, y, y);
      MakeOrder(n, t.bal, Lean(!d), d, k, k, y, y);
    } else {
      MakeKids(y, !d);
      FlipMake(n, t.bal, d, k, y);
      if y.bal == Lean(d) {
        var z := Kid(y, d);
        MakeKids(z, !d);
        DoubleOrder(n, y.node, z.node, UpperBal(!d, z.bal), LowerBal(!d, z.bal), t.bal, y.bal, z.bal, !d, Kid(y, !d),
                    Kid(z, !d), Kid(z, d), k);
      } else {
        SingleOrder(n, y.node, DownBal(d, y.bal), TopBal(d, y.bal), t.bal, y.bal, !d, Kid(y, !d), Kid(y, d), k);
      }
    }
  }

  /** The position of the last node in the order. */
  ghost function LastAt(keys: Keys, t: Tree, x: Node): nat
    requires t.Bin?
  {
    if !Side(keys, x, t.node) then (if t.l.Nil? then 0 else LastAt(keys, t.l, x))
    else |Inorder(t.l)| + (if t.r.Nil? then 0 else 1 + LastAt(keys, t.r, x))
  }

  lemma {:induction false} LastIs(keys: Keys, t: Tree, x: Node)
    requires t.Bin?
    ensures LastAt(keys, t, x) < |Inorder(t)| && Inorder(t)[LastAt(keys, t, x)] == Last(keys, t, x)
  {
    var k := Kid(t, Side(keys, x, t.node));
    if k.Bin? { LastIs(keys, k, x); }
  }

  /** A cut on one side is a cut in the whole order. */
  lemma CutSide(keys: Keys, t: Tree, x: Node, k: Tree)
    requires t.Bin? && Kid(t, Side(keys, x, t.node)).Bin?
    requires var u := Kid(t, Side(keys, x, t.node));
             LastAt(keys, u, x) < |Inorder(u)|
             && Inorder(k) == Without(Inorder(u), LastAt(keys, u, x))
    ensures LastAt(keys, t, x) < |Inorder(t)|
    ensures var d := Side(keys, x, t.node);
            Inorder(Make(t.node, t.bal, d, k, Kid(t, !d))) ==
            Without(Inorder(t), LastAt(keys, t, x))
  {
    var d := Side(keys, x, t.node);
    var a, b, i := Inorder(t.l), Inorder(t.r), LastAt(keys, Kid(t, d), x);
    MakeJoins(t.node, t.bal, d, k, Kid(t, !d));
    if d { CutRight(a, t.node, b, i); } else { CutLeft(a, t.node, b, i); }
  }

  lemma MakeJoins(n: Node, b: Bal, d: bool, a: Tree, o: Tree)
    ensures Inorder(Make(n, b, d, a, o)) == if d then Inorder(o) + [n] + Inorder(a) else Inorder(a) + [n] + Inorder(o)
  {
  }

  lemma CutLeft(a: seq<Node>, n: Node, b: seq<Node>, i: nat)
    requires i < |a|
    ensures Without(a, i) + [n] + b == Without(a + [n] + b, i)
  {
  }

  lemma CutRight(a: seq<Node>, n: Node, b: seq<Node>, i: nat)
    requires i < |b|
    ensures a + [n] + Without(b, i) == Without(a + [n] + b, |a| + 1 + i)
  {
    var s := a + [n] + b;
    assert s[..|a| + 1 + i] == a + [n] + b[..i];
    assert s[|a| + 1 + i + 1..] == b[i + 1..];
  }

  lemma {:induction false} CutAllOrder(keys: Keys, t: Tree, x: Node)
    requires t.Bin?
    ensures LastAt(keys, t, x) < |Inorder(t)| && Inorder(CutAll(keys, t, x)) == Without(Inorder(t), LastAt(keys, t, x))
  {
    var d := Side(keys, x, t.node);
    if Kid(t, d).Bin? {
      hide Settle, Inorder, Make, Without, LastAt;
      CutAllOrder(keys, Kid(t, d), x);
      CutSide(keys, t, x, CutAll(keys, Kid(t, d), x));
      SettleOrder(t, d, CutAll(keys, Kid(t, d), x));
    }
  }

  lemma {:induction false} CutOrder(keys: Keys, t: Tree, x: Node)
    requires t.Bin?
    ensures LastAt(keys, t, x) < |Inorder(t)| && Inorder(Cut(keys, t, x)) == Without(Inorder(t), LastAt(keys, t, x))
  {
    hide CutAll, Inorder, Make, Without, LastAt;
    var d := Side(keys, x, t.node);
    if Stops(keys, Kid(t, d), x) {
      CutOrder(keys, Kid(t, d), x);
      CutSide(keys, t, x, Cut(keys, Kid(t, d), x));
    } else {
      CutAllOrder(keys, t, x);
    }
  }

  /** Position `i` holds `x` or stands right before it. */
  predicate JustBefore(s: seq<Node>, i: nat, x: Node) {
    i < |s| && (s[i] == x || (i + 1 < |s| && s[i + 1] == x))
  }

  /** The way to a member ends at the member itself or at its predecessor. */
  lemma {:induction false} LastIsPredecessor(keys: Keys, t: Tree, x: Node)
    requires t.Bin? && Ascending(keys, Inorder(t)) && x in Inorder(t)
    ensures JustBefore(Inorder(t), LastAt(keys, t, x), x)
  {
    hide Ascending, Last, Inorder, JustBefore;
    AscendingKids(keys, t);
    InorderBin(t);
    NilOrder();
    var d := Side(keys, x, t.node);
    if t.node == x {
      RootBefore(keys, t, x);
    } else {
      assert x in Inorder(Kid(t, d));
      LastIsPredecessor(keys, Kid(t, d), x);
      JoinAt(Inorder(t.l), t.node, Inorder(t.r), LastAt(keys, Kid(t, d), x), x);
    }
  }

  lemma RootBefore(keys: Keys, t: Tree, x: Node)
    requires t.Bin? && Ascending(keys, Inorder(t)) && t.node == x
    ensures JustBefore(Inorder(t), LastAt(keys, t, x), x)
  {
    hide Ascending, Last, Inorder;
    AscendingKids(keys, t);
    InorderBin(t);
    NilOrder();
    if t.l.Bin? { Rightmost(keys, t.l, x); }
    assert Inorder(t)[|Inorder(t.l)|] == x;
  }

  lemma NilOrder()
    ensures Inorder(Nil) == []
  {
  }

  lemma InorderBin(t: Tree)
    requires t.Bin?
    ensures Inorder(t) == Inorder(t.l) + [t.node] + Inorder(t.r)
    ensures forall n :: n in Inorder(t) <==> n in Inorder(t.l) || n == t.node || n in Inorder(t.r)
  {
  }

  lemma JoinAt(a: seq<Node>, n: Node, b: seq<Node>, i: nat, x: Node)
    ensures JustBefore(a, i, x) ==> JustBefore(a + [n] + b, i, x)
    ensures JustBefore(b, i, x) ==> JustBefore(a + [n] + b, |a| + 1 + i, x)
  {
  }

  lemma {:induction false} Rightmost(keys: Keys, t: Tree, x: Node)
    requires t.Bin? && forall n | n in Inorder(t) :: Base(keys, n) < Base(keys, x)
    ensures LastAt(keys, t, x) == |Inorder(t)| - 1
  {
    assert t.node in Inorder(t);
    if t.r.Bin? { Rightmost(keys, t.r, x); }
  }

  // ------------------------------------------------------------------- rename

  ghost function RenameAll(s: seq<Node>, x: Node, y: Node): seq<Node> {
    seq(|s|, i requires 0 <= i < |s| => if s[i] == x then y else s[i])
  }

  lemma {:induction false} RenameOrder(t: Tree, x: Node, y: Node)
    ensures Inorder(Rename(t, x, y)) == RenameAll(Inorder(t), x, y)
    ensures Height(Rename(t, x, y)) == Height(t) && (Balanced(t) ==> Balanced(Rename(t, x, y)))
  {
    if t.Bin? {
      RenameOrder(t.l, x, y);
      RenameOrder(t.r, x, y);
    }
  }

  /** Removal in full: order and balance kept, exactly `x` gone. */
  lemma RemoveFacts(keys: Keys, t: Tree, x: Node) returns (i: nat)
    requires t.Bin? && Balanced(t) && Ascending(keys, Inorder(t)) && x in Inorder(t)
    ensures Balanced(Remove(keys, t, x)) && i < |Inorder(t)| && Inorder(t)[i] == x
    ensures Inorder(Remove(keys, t, x)) == Without(Inorder(t), i)
  {
    hide Cut, Inorder, Balanced, Last, LastAt;
    var s, l, y := Inorder(t), LastAt(keys, t, x), Last(keys, t, x);
    CutBalanced(keys, t, x);
    CutOrder(keys, t, x);
    LastIs(keys, t, x);
    LastIsPredecessor(keys, t, x);
    RenameOrder(Cut(keys, t, x), x, y);
    AscendingNoDup(keys, s);
    if s[l] == x {
      i := l;
      assert RenameAll(Without(s, l), x, y) == Without(s, l);
    } else {
      i := l + 1;
      var c := RenameAll(Without(s, l), x, y);
      forall j | 0 <= j < |c| ensures c[j] == Without(s, i)[j] {
        assert s[if j < l then j else j + 1] == x <==> j == l;
      }
      assert c == Without(s, i);
    }
  }

  lemma AscendingNoDup(keys: Keys, s: seq<Node>)
    requires Ascending(keys, s)
    ensures NoDup(s)
  {
  }
}
