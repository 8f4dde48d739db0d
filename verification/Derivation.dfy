/**
 The derivation list of a capability: a circular list that holds the derivation tree
 in preorder, each node with its depth and its parent.
 */
module Derivation {
  import opened Rings

  type Node = nat
  type Rights = set<nat>

  /** The rights of every node. */
  type Attrs = map<Node, Rights>

  /** Depth and parent of every node; roots have no parent. */
  datatype Kin = Kin(dpth: map<Node, nat>, prnt: map<Node, Node>)

  function Depth(kin: Kin, n: Node): nat {
    if n in kin.dpth then kin.dpth[n] else 0
  }

  /** `n` is `m` or derived from it, directly or not. */
  ghost predicate Derived(kin: Kin, m: Node, n: Node)
    decreases Depth(kin, n)
  {
    n == m || (n in kin.prnt && Depth(kin, kin.prnt[n]) < Depth(kin, n) && Derived(kin, m, kin.prnt[n]))
  }

  /** Position `i` holds the parent of position `j`, and `j` lies in its subtree. */
  ghost predicate ParentAt(kin: Kin, r: seq<Node>, i: int, j: int) {
    && 0 <= i < j < |r| && r[j] in kin.prnt && kin.prnt[r[j]] == r[i]
    && Depth(kin, r[j]) == Depth(kin, r[i]) + 1
    && Deeper(kin, r, i, j)
  }

  /** Everything behind position `i` up to `j` is deeper than `i`. */
  ghost predicate Deeper(kin: Kin, r: seq<Node>, i: int, j: int)
    requires 0 <= i < |r| && j < |r|
  {
    forall k {:trigger r[k]} | i < k <= j :: Depth(kin, r[i]) < Depth(kin, r[k])
  }

  lemma DeeperAt(kin: Kin, r: seq<Node>, i: int, j: int, k: int)
    requires 0 <= i < |r| && j < |r| && Deeper(kin, r, i, j) && i < k <= j
    ensures Depth(kin, r[i]) < Depth(kin, r[k])
  {
  }

  ghost predicate HasParent(kin: Kin, r: seq<Node>, j: int) {
    exists i :: ParentAt(kin, r, i, j)
  }

  /** `r` lists a derivation tree in preorder; rights only shrink from parent to child. */
  ghost predicate Preorder(kin: Kin, attr: Attrs, r: seq<Node>) {
    && |r| >= 1 && NoDup(r)
    && (forall n | n in r :: n in kin.dpth && n in attr)
    && Depth(kin, r[0]) == 0 && r[0] !in kin.prnt
    && (forall j {:trigger HasParent(kin, r, j)} | 0 < j < |r| :: HasParent(kin, r, j))
    && (forall j {:trigger Climbs(kin, r, j)} | 0 < j < |r| :: Climbs(kin, r, j))
    && (forall j {:trigger Narrows(kin, attr, r, j)} | 0 < j < |r| :: Narrows(kin, attr, r, j))
  }

  ghost predicate Climbs(kin: Kin, r: seq<Node>, j: int)
    requires 0 < j < |r|
  {
    Depth(kin, r[j]) <= Depth(kin, r[j - 1]) + 1
  }

  ghost predicate Narrows(kin: Kin, attr: Attrs, r: seq<Node>, j: int)
    requires 0 < j < |r|
  {
    r[j] in attr && r[j] in kin.prnt && kin.prnt[r[j]] in attr && attr[r[j]] <= attr[kin.prnt[r[j]]]
  }

  /** The subtree of a node is the run behind it of deeper nodes, and exactly its derived nodes. */
  lemma {:induction false} SubtreeIsRun(kin: Kin, attr: Attrs, r: seq<Node>, i: nat, j: nat)
    requires Preorder(kin, attr, r) && i < |r| && j < |r|
    ensures Derived(kin, r[i], r[j]) <==> i <= j && Deeper(kin, r, i, j)
    decreases j
  {
    if j == 0 {
      assert i == 0 || r[i] != r[0];
    } else if i != j {
      assert HasParent(kin, r, j);
      var p :| ParentAt(kin, r, p, j);
      SubtreeIsRun(kin, attr, r, i, p);
      assert r[i] != r[j];
      if i <= p && Deeper(kin, r, i, p) {
        forall k | i < k <= j ensures Depth(kin, r[i]) < Depth(kin, r[k]) {
          if k > p { assert Depth(kin, r[p]) < Depth(kin, r[k]); }
          if i < p { assert Depth(kin, r[i]) < Depth(kin, r[p]); }
        }
      }
      if i <= j && Deeper(kin, r, i, j) {
        assert Depth(kin, r[i]) < Depth(kin, r[j]);
        if p < i { DeeperAt(kin, r, p, j, i); }
      }
    }
  }

  /** Rights of derived nodes are contained in the rights of the node they come from. */
  lemma {:induction false} DerivedNarrows(kin: Kin, attr: Attrs, r: seq<Node>, i: nat, j: nat)
    requires Preorder(kin, attr, r) && i < |r| && j < |r| && Derived(kin, r[i], r[j])
    ensures attr[r[j]] <= attr[r[i]]
    decreases j
  {
    if i != j {
      SubtreeIsRun(kin, attr, r, i, j);
      assert HasParent(kin, r, j);
      var p :| ParentAt(kin, r, p, j);
      assert r[i] != r[j];
      assert Narrows(kin, attr, r, j);
      DerivedNarrows(kin, attr, r, i, p);
    }
  }

  /** A new node directly behind its parent. */
  function Adopt(kin: Kin, p: Node, x: Node): Kin {
    Kin(kin.dpth[x := Depth(kin, p) + 1], kin.prnt[x := p])
  }

  /** `insert_node`: linking a child in behind its parent keeps the preorder. */
  lemma AdoptPreorder(kin: Kin, attr: Attrs, r: seq<Node>, i: nat, x: Node, a: Rights)
    requires Preorder(kin, attr, r) && i < |r| && x !in r && a <= attr[r[i]]
    ensures Preorder(Adopt(kin, r[i], x), attr[x := a], With(r, i + 1, x))
  {
    var kin', attr', r' := Adopt(kin, r[i], x), attr[x := a], With(r, i + 1, x);
    WithMembers(r, i + 1, x);
    assert r'[0] == r[0];
    forall j | 0 < j < |r'|
      ensures HasParent(kin', r', j) && Climbs(kin', r', j) && Narrows(kin', attr', r', j)
    {
      AdoptAt(kin, attr, r, i, x, a, j);
    }
  }

  lemma AdoptAt(kin: Kin, attr: Attrs, r: seq<Node>, i: nat, x: Node, a: Rights, j: nat)
    requires Preorder(kin, attr, r) && i < |r| && x !in r && a <= attr[r[i]] && 0 < j <= |r|
    ensures var kin', attr', r' := Adopt(kin, r[i], x), attr[x := a], With(r, i + 1, x);
            HasParent(kin', r', j) && Climbs(kin', r', j) && Narrows(kin', attr', r', j)
  {
    hide Preorder, HasParent, Climbs, Narrows;
    if j == i + 1 {
      AdoptNew(kin, attr, r, i, x, a);
    } else {
      PreorderAt(kin, attr, r, if j <= i then j else j - 1);
      AdoptOld(kin, attr, r, i, x, a, j);
    }
  }

  lemma PreorderAt(kin: Kin, attr: Attrs, r: seq<Node>, j: nat)
    requires Preorder(kin, attr, r) && 0 < j < |r|
    ensures HasParent(kin, r, j) && Climbs(kin, r, j) && Narrows(kin, attr, r, j)
    ensures r[j] in r && r[j - 1] in r && r[j] in kin.dpth && r[j - 1] in kin.dpth
  {
    assert r[j] in r && r[j - 1] in r;
  }

  /** The new node itself. */
  lemma AdoptNew(kin: Kin, attr: Attrs, r: seq<Node>, i: nat, x: Node, a: Rights)
    requires Preorder(kin, attr, r) && i < |r| && x !in r && a <= attr[r[i]]
    ensures var kin', attr', r' := Adopt(kin, r[i], x), attr[x := a], With(r, i + 1, x);
            HasParent(kin', r', i + 1) && Climbs(kin', r', i + 1) && Narrows(kin', attr', r', i + 1)
  {
    var kin', r' := Adopt(kin, r[i], x), With(r, i + 1, x);
    assert r[i] in r && r'[i] == r[i] && r'[i + 1] == x;
    assert ParentAt(kin', r', i, i + 1);
  }

  /** A node that was there before. */
  lemma AdoptOld(kin: Kin, attr: Attrs, r: seq<Node>, i: nat, x: Node, a: Rights, j: nat)
    requires i < |r| && x !in r && 0 < j <= |r| && j != i + 1
    requires var o := if j <= i then j else j - 1;
             0 < o && HasParent(kin, r, o) && Climbs(kin, r, o) && Narrows(kin, attr, r, o)
    ensures var kin', attr', r' := Adopt(kin, r[i], x), attr[x := a], With(r, i + 1, x);
            HasParent(kin', r', j) && Climbs(kin', r', j) && Narrows(kin', attr', r', j)
  {
    hide Deeper;
    var o := if j <= i then j else j - 1;
    var r' := With(r, i + 1, x);
    assert r'[j] == r[o] && r[o] in r && r[o - 1] in r && r[i] in r;
    assert r'[j - 1] == if j == i + 2 then x else r[o - 1];
    var p :| ParentAt(kin, r, p, o);
    assert r[p] in r;
    AdoptParent(kin, r, i, x, p, o);
  }

  lemma AdoptParent(kin: Kin, r: seq<Node>, i: nat, x: Node, p: int, o: int)
    requires i < |r| && x !in r && ParentAt(kin, r, p, o)
    ensures ParentAt(Adopt(kin, r[i], x), With(r, i + 1, x), if p <= i then p else p + 1, if o <= i then o else o + 1)
  {
    var kin', r' := Adopt(kin, r[i], x), With(r, i + 1, x);
    var p', o' := if p <= i then p else p + 1, if o <= i then o else o + 1;
    assert r'[p'] == r[p] && r'[o'] == r[o];
    forall n | n in r ensures Depth(kin', n) == Depth(kin, n) { }
    forall k | p' < k <= o' ensures Depth(kin', r'[p']) < Depth(kin', r'[k]) {
      if k == i + 1 {
        if i > p { assert Depth(kin, r[p]) < Depth(kin, r[i]); }
      } else {
        var q := if k <= i then k else k - 1;
        assert r'[k] == r[q];
        assert Depth(kin, r[p]) < Depth(kin, r[q]);
      }
    }
  }

  /** `remove_node`: unlinking a node without children keeps the preorder. */
  lemma RemovePreorder(kin: Kin, attr: Attrs, r: seq<Node>, i: nat)
    requires Preorder(kin, attr, r) && 0 < i < |r|
    requires i + 1 < |r| ==> Depth(kin, r[i + 1]) <= Depth(kin, r[i])
    ensures Preorder(kin, attr, Without(r, i))
  {
    hide HasParent, Climbs, Narrows;
    var r' := Without(r, i);
    WithoutMembers(r, i);
    forall j | 0 < j < |r'|
      ensures HasParent(kin, r', j) && Climbs(kin, r', j) && Narrows(kin, attr, r', j)
    {
      RemoveAt(kin, attr, r, i, j);
    }
  }

  lemma RemoveAt(kin: Kin, attr: Attrs, r: seq<Node>, i: nat, j: nat)
    requires Preorder(kin, attr, r) && 0 < i < |r| && 0 < j < |r| - 1
    requires i + 1 < |r| ==> Depth(kin, r[i + 1]) <= Depth(kin, r[i])
    ensures var r' := Without(r, i); HasParent(kin, r', j) && Climbs(kin, r', j) && Narrows(kin, attr, r', j)
  {
    hide Preorder, Deeper;
    var r', o := Without(r, i), if j < i then j else j + 1;
    PreorderAt(kin, attr, r, o);
    PreorderAt(kin, attr, r, i);
    assert r'[j] == r[o] && r'[j - 1] == if j == i then r[i - 1] else r[o - 1];
    var p :| ParentAt(kin, r, p, o);
    if p == i { DeeperAt(kin, r, i, o, i + 1); }
    RemoveParent(kin, r, i, p, o);
  }

  lemma RemoveParent(kin: Kin, r: seq<Node>, i: nat, p: int, o: int)
    requires i < |r| && p != i && o != i && ParentAt(kin, r, p, o)
    ensures ParentAt(kin, Without(r, i), if p < i then p else p - 1, if o < i then o else o - 1)
  {
    var r' := Without(r, i);
    var p', o' := if p < i then p else p - 1, if o < i then o else o - 1;
    forall k | p' < k <= o' ensures Depth(kin, r'[p']) < Depth(kin, r'[k]) {
      var q := if k < i then k else k + 1;
      assert r'[k] == r[q];
    }
  }

  // ----------------------------------------------------------- picking nodes

  /** Ancestors of a listed node are listed before it. */
  lemma {:induction false} AncestorAt(kin: Kin, attr: Attrs, r: seq<Node>, c: Node, j: nat) returns (q: nat)
    requires Preorder(kin, attr, r) && j < |r| && Derived(kin, c, r[j])
    ensures q <= j && r[q] == c
    decreases j
  {
    if r[j] == c {
      q := j;
    } else {
      if j > 0 { assert HasParent(kin, r, j); }
      var p :| ParentAt(kin, r, p, j);
      q := AncestorAt(kin, attr, r, c, p);
    }
  }

  /** In the subtree of `i`, the nodes one level deeper are exactly its children. */
  lemma ChildOf(kin: Kin, attr: Attrs, r: seq<Node>, i: nat, j: nat)
    requires Preorder(kin, attr, r) && i < j < |r|
    ensures Deeper(kin, r, i, j) && Depth(kin, r[j]) == Depth(kin, r[i]) + 1
       <==> r[j] in kin.prnt && kin.prnt[r[j]] == r[i]
  {
    assert HasParent(kin, r, j);
    var p :| ParentAt(kin, r, p, j);
    if Deeper(kin, r, i, j) && Depth(kin, r[j]) == Depth(kin, r[i]) + 1 {
      if p < i { DeeperAt(kin, r, p, j, i); } else if p > i { DeeperAt(kin, r, i, j, p); }
    }
  }

  /** `n` derives from a child of `m` for which `hit` holds. */
  ghost predicate BelowHit(kin: Kin, hit: Node -> bool, m: Node, n: Node) {
    exists c :: HitChild(kin, hit, m, c) && Derived(kin, c, n)
  }

  ghost predicate HitChild(kin: Kin, hit: Node -> bool, m: Node, c: Node) {
    c in kin.prnt && kin.prnt[c] == m && hit(c)
  }

  /** How `revoke` carries the decision for a child of `m` on to everything derived from it. */
  lemma HitCarried(kin: Kin, attr: Attrs, r: seq<Node>, hit: Node -> bool, i: nat, j: nat)
    requires Preorder(kin, attr, r) && i <= j < |r| && Deeper(kin, r, i, j)
    ensures i == j ==> !BelowHit(kin, hit, r[i], r[j])
    ensures i < j && Depth(kin, r[j]) == Depth(kin, r[i]) + 1 ==> (BelowHit(kin, hit, r[i], r[j]) <==> hit(r[j]))
    ensures i < j && Depth(kin, r[j]) != Depth(kin, r[i]) + 1 ==>
              i + 1 < j && (BelowHit(kin, hit, r[i], r[j]) <==> BelowHit(kin, hit, r[i], r[j - 1]))
  {
    if i == j {
      HitAt(kin, attr, r, hit, i, j);
    } else if Depth(kin, r[j]) == Depth(kin, r[i]) + 1 {
      ChildOf(kin, attr, r, i, j);
      HitAt(kin, attr, r, hit, i, j);
      if hit(r[j]) { assert HitChild(kin, hit, r[i], r[j]) && Derived(kin, r[j], r[j]); }
    } else {
      assert Climbs(kin, r, j);
      assert Depth(kin, r[i]) < Depth(kin, r[j]);
      HitAt(kin, attr, r, hit, i, j);
      HitAt(kin, attr, r, hit, i, j - 1);
      HitStep(kin, r, hit, i, j, j - 1);
    }
  }

  lemma HitStep(kin: Kin, r: seq<Node>, hit: Node -> bool, i: nat, j: nat, k: nat)
    requires i <= k < j < |r| && j == k + 1 && Depth(kin, r[j]) > Depth(kin, r[i]) + 1
    ensures (exists q :: HitPosition(kin, r, hit, i, j, q)) <==> (exists q :: HitPosition(kin, r, hit, i, k, q))
  {
    if q :| HitPosition(kin, r, hit, i, j, q) { assert HitPosition(kin, r, hit, i, k, q); }
    if q :| HitPosition(kin, r, hit, i, k, q) { assert HitPosition(kin, r, hit, i, j, q); }
  }

  /** The child that decides for position `j` is the last one of depth one more at or before `j`. */
  lemma HitAt(kin: Kin, attr: Attrs, r: seq<Node>, hit: Node -> bool, i: nat, j: nat)
    requires Preorder(kin, attr, r) && i <= j < |r|
    ensures BelowHit(kin, hit, r[i], r[j]) <==> exists q :: HitPosition(kin, r, hit, i, j, q)
  {
    if BelowHit(kin, hit, r[i], r[j]) {
      var c :| HitChild(kin, hit, r[i], c) && Derived(kin, c, r[j]);
      var q := AncestorAt(kin, attr, r, c, j);
      SubtreeIsRun(kin, attr, r, q, j);
      if q > 0 { assert HasParent(kin, r, q); }
      var p :| ParentAt(kin, r, p, q);
      assert p == i;
      ChildOf(kin, attr, r, i, q);
      assert HitPosition(kin, r, hit, i, j, q);
    }
    if q :| HitPosition(kin, r, hit, i, j, q) {
      ChildOf(kin, attr, r, i, q);
      SubtreeIsRun(kin, attr, r, q, j);
      assert HitChild(kin, hit, r[i], r[q]);
    }
  }

  ghost predicate HitPosition(kin: Kin, r: seq<Node>, hit: Node -> bool, i: nat, j: nat, q: int) {
    && 0 <= i < q <= j < |r| && Depth(kin, r[q]) == Depth(kin, r[i]) + 1 && Deeper(kin, r, i, q) && Deeper(kin, r, q, j)
    && hit(r[q])
  }
}
