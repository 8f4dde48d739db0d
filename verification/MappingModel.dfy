/**
 The mapping database as values: its invariant, and what delegation and revocation do to rights,
 lists, trees and capability slots.
 */
module MappingModel {
  import opened Options
  import opened Radix
  import opened Bits
  import opened Rings
  import opened Derivation

  /** Each protection domain has an object space and a port space; domain 0 is the kernel. */
  datatype Space = Objects(pd: nat) | Ports(pd: nat)

  /** The constant fields of a node. */
  datatype Info = Info(space: Space, phys: nat, base: nat, order: nat, sub: set<Table>)

  /** The tables of a space: a port space has a bitmap for the host and one for the guest. */
  datatype Table = Host | Guest

  predicate Kernel(s: Space) {
    s.pd == 0
  }

  /**
   The tables a node shows in: an object in the only table, ports in those their subspaces name, the kernel's in
   none.
   */
  function Tables(f: Info): set<Table> {
    if Kernel(f.space) then {} else if f.space.Objects? then {Host} else f.sub
  }

  /** What a table grants at one index: nothing, an object with rights, or a port (a clear permission bit). */
  datatype Cell = Null | Cap(obj: nat, rights: Rights) | Open

  type Slots = map<(Space, Table, nat), Cell>

  type Infos = map<Node, Info>

  type Lists = seq<seq<Node>>

  type Homes = map<Node, nat>

  type Links = map<Node, Node>

  /** The test of both `clamp` and `equal`: the larger block holds the smaller. */
  predicate Meets(a: nat, i: nat, b: nat, j: nat) {
    Xor(a, b) / Pow2(Max(i, j)) == 0
  }

  /** `Pd::clamp` with a hit: the base and order of the common part. */
  function Common(a: nat, i: nat, b: nat, j: nat): (nat, nat) {
    (Or(b, a), Min(i, j))
  }

  predicate InRange(base: nat, order: nat, x: nat) {
    base <= x < base + Pow2(order)
  }

  /** Ranges are naturally aligned; objects have a single index. */
  predicate AlignedInfo(f: Info) {
    AlignedBy(f.base, f.order) && AlignedBy(f.phys, f.order) && (f.space.Objects? ==> f.order == 0)
  }

  /** For aligned blocks, to meet is to share an address; the common part is the smaller block. */
  lemma MeetsIsOverlap(a: nat, i: nat, b: nat, j: nat)
    requires AlignedBy(a, i) && AlignedBy(b, j)
    ensures Meets(a, i, b, j) <==> exists x :: InRange(a, i, x) && InRange(b, j, x)
    ensures Meets(a, i, b, j) ==>
              && Common(a, i, b, j).0 == Max(a, b)
              && forall x :: InRange(Max(a, b), Min(i, j), x) <==> InRange(a, i, x) && InRange(b, j, x)
  {
    hide Pow2, Xor, Or;
    XorBlocks(a, b, Max(i, j));
    if i <= j {
      SameBlock(a, b, j);
      Nested(a, i, b, j);
      if Meets(a, i, b, j) { OrBase(b, a - b, j); assert InRange(a, i, a) && InRange(b, j, a); }
    } else {
      SameBlock(b, a, i);
      Nested(b, j, a, i);
      if Meets(a, i, b, j) { OrBase(a, b - a, i); assert InRange(a, i, b) && InRange(b, j, b); }
    }
  }

  // ---------------------------------------------------------------- invariant

  ghost predicate RingOk(next: Links, prev: Links, kin: Kin, attr: Attrs, r: seq<Node>) {
    r == [] || (IsRing(next, prev, r) && Preorder(kin, attr, r))
  }

  /** Every derivation list is a ring in preorder, and the trees hold exactly the listed nodes. */
  ghost predicate Forest(next: Links, prev: Links, kin: Kin, attr: Attrs, rings: Lists, home: Homes, tree: set<Node>) {
    && AllRings(next, prev, kin, attr, rings)
    && (forall h, n | 0 <= h < |rings| && n in rings[h] :: n in home && home[n] == h)
    && (forall n :: n in tree <==> n in home && home[n] < |rings| && n in rings[home[n]])
  }

  /** Ranges are aligned, and those of one space are apart. */
  ghost predicate Ranges(info: Infos, tree: set<Node>) {
    && (forall n | n in tree :: n in info && AlignedInfo(info[n]))
    && (forall n, m | n in tree && m in tree && n != m && info[n].space == info[m].space ::
          !Meets(info[n].base, info[n].order, info[m].base, info[m].order))
  }

  function SlotAt(slots: Slots, s: Space, t: Table, i: nat): Cell {
    if (s, t, i) in slots then slots[(s, t, i)] else Null
  }

  function CapOf(f: Info, a: Rights): Cell {
    if a == {} then Null else if f.space.Objects? then Cap(f.phys, a) else Open
  }

  ghost predicate Holds(info: Infos, tree: set<Node>, n: Node, s: Space, t: Table, i: nat) {
    n in tree && n in info && info[n].space == s && t in Tables(info[n]) && InRange(info[n].base, info[n].order, i)
  }

  /** Each slot shows the object and rights of the node that covers it, and nothing if there is none. */
  ghost predicate SlotsOk(slots: Slots, info: Infos, attr: Attrs, tree: set<Node>) {
    && (forall n, s, t, i | Holds(info, tree, n, s, t, i) ::
        n in attr && SlotAt(slots, s, t, i) == CapOf(info[n], attr[n]))
    && (forall s, t, i | SlotAt(slots, s, t, i) != Null :: exists n :: Holds(info, tree, n, s, t, i))
  }

  /** `c` shows in the first `i` slots of the node, in each of its tables; all else is as before. */
  ghost predicate Shown(slots: Slots, slots': Slots, f: Info, i: int, c: Cell) {
    forall s: Space, t: Table, x: nat :: SlotAt(slots', s, t, x) ==
      (if s == f.space && t in Tables(f) && f.base <= x < f.base + i then c else SlotAt(slots, s, t, x))
  }

  /** One more index of a range of ports. */
  lemma ShownStep(slots: Slots, was: Slots, slots': Slots, f: Info, i: nat, c: Cell)
    requires Shown(slots, was, f, i, c) && f.space.Ports? && !Kernel(f.space)
    requires var some := if Host in f.sub then was[(f.space, Host, f.base + i) := c] else was;
             slots' == if Guest in f.sub then some[(f.space, Guest, f.base + i) := c] else some
    ensures Shown(slots, slots', f, i + 1, c)
  {
    forall s: Space, t: Table, x: nat
      ensures SlotAt(slots', s, t, x) ==
              (if s == f.space && t in f.sub && x == f.base + i then c else SlotAt(was, s, t, x))
    {
      assert t == Host || t == Guest;
    }
  }

  /** The slot of an object. */
  lemma ShownObject(slots: Slots, f: Info, c: Cell)
    requires f.space.Objects? && !Kernel(f.space) && f.order == 0
    ensures Shown(slots, slots[(f.space, Host, f.base) := c], f, Pow2(f.order), c)
  {
    assert Pow2(0) == 1;
  }

  lemma ShownNowhere(slots: Slots, f: Info, c: Cell)
    requires Kernel(f.space)
    ensures Shown(slots, slots, f, Pow2(f.order), c)
  {
  }

  ghost predicate Below(tree: set<Node>, limit: nat) {
    forall n | n in tree :: n < limit
  }

  /** Only a root may be without rights. */
  ghost predicate Rightful(attr: Attrs, kin: Kin, tree: set<Node>) {
    forall n | n in tree :: n in attr && (attr[n] == {} ==> n !in kin.prnt)
  }

  /** The kernel's nodes are roots. */
  ghost predicate KernelRoots(info: Infos, kin: Kin, tree: set<Node>) {
    forall n | n in tree :: n in info && (Kernel(info[n].space) ==> n !in kin.prnt)
  }

  // ------------------------------------------------------------------ picking

  predicate PhysMeets(info: Infos, lo: nat, o: nat, c: Node) {
    c in info && Meets(info[c].phys, info[c].order, lo, o)
  }

  /** The nodes one round of `revoke` strips, for the node `m` and its physical window. */
  ghost predicate Picked(kin: Kin, info: Infos, self: bool, m: Node, lo: nat, o: nat, n: Node) {
    if self then PhysMeets(info, lo, o, m) && Derived(kin, m, n)
    else BelowHit(kin, (c: Node) => PhysMeets(info, lo, o, c), m, n)
  }

  ghost function Picks(kin: Kin, info: Infos, tree: set<Node>, self: bool, m: Node, lo: nat, o: nat): set<Node> {
    set n | n in tree && Picked(kin, info, self, m, lo, o, n)
  }

  /** `mask` is gone from the rights of the nodes in `picks`; all else is as before. */
  ghost predicate Stripped(attr: Attrs, attr': Attrs, picks: set<Node>, mask: Rights) {
    attr'.Keys == attr.Keys && forall n | n in attr :: attr'[n] == if n in picks then attr[n] - mask else attr[n]
  }

  lemma {:induction false} DerivedTrans(kin: Kin, m: Node, c: Node, n: Node)
    requires Derived(kin, m, c) && Derived(kin, c, n)
    ensures Derived(kin, m, n)
    decreases Depth(kin, n)
  {
    if n != c { DerivedTrans(kin, m, c, kin.prnt[n]); }
  }

  /** Picked nodes derive from `m`, so they stand in its list, behind it. */
  lemma PickedDerived(kin: Kin, attr: Attrs, r: seq<Node>, info: Infos, self: bool, m: Node, lo: nat, o: nat, k: nat)
    requires Preorder(kin, attr, r) && k < |r| && Picked(kin, info, self, m, lo, o, r[k])
    ensures Derived(kin, m, r[k])
  {
    if !self {
      var hit := (c: Node) => PhysMeets(info, lo, o, c);
      var c :| HitChild(kin, hit, m, c) && Derived(kin, c, r[k]);
      var q := AncestorAt(kin, attr, r, c, k);
      if q > 0 { assert HasParent(kin, r, q); }
      assert Derived(kin, m, m);
      assert Derived(kin, m, c);
      DerivedTrans(kin, m, c, r[k]);
    }
  }

  /** A picked node of the trees stands in the list of `m`. */
  lemma PickedHome(next: Links, prev: Links, kin: Kin, attr: Attrs, rings: Lists, home: Homes, tree: set<Node>,
                   info: Infos, self: bool, m: Node, lo: nat, o: nat, n: Node)
    requires Forest(next, prev, kin, attr, rings, home, tree) && n in tree && m in home
    requires Picked(kin, info, self, m, lo, o, n)
    ensures home[n] == home[m] && n in rings[home[n]] && m in rings[home[n]] && Derived(kin, m, n)
  {
    var r := rings[home[n]];
    var k :| 0 <= k < |r| && r[k] == n;
    PickedDerived(kin, attr, r, info, self, m, lo, o, k);
    var q := AncestorAt(kin, attr, r, m, k);
    assert r[q] in r;
  }

  /** The first node of space `s` that ends behind `addr`: it holds `addr` or is the least above. */
  ghost predicate IsLookup(info: Infos, tree: set<Node>, s: Space, addr: nat, found: Option<Node>) {
    match found
    case None => forall n | n in tree && n in info && info[n].space == s :: !EndsBehind(info, n, addr)
    case Some(m) =>
      && m in tree && m in info && info[m].space == s && EndsBehind(info, m, addr)
      && forall n | n in tree && n in info && info[n].space == s && EndsBehind(info, n, addr) ::
        info[m].base <= info[n].base
  }

  predicate EndsBehind(info: Infos, n: Node, addr: nat)
    requires n in info
  {
    addr < info[n].base + Pow2(info[n].order)
  }

  lemma LookupMore(info: Infos, tree: set<Node>, some: set<Node>, s: Space, addr: nat, found: Option<Node>, n: Node)
    requires Ranges(info, tree) && n in tree && some <= tree && IsLookup(info, some, s, addr, found)
    ensures n in info && (found != None ==> found.value in info)
    ensures IsLookup(info, some + {n}, s, addr,
                     if info[n].space == s && EndsBehind(info, n, addr)
                       && (found == None || info[n].base < info[found.value].base)
                     then Some(n) else found)
  {
    hide Meets, AlignedBy, Pow2;
  }

  /** The nodes of the space that meet the window and do not end before it. */
  ghost function Hits(info: Infos, tree: set<Node>, s: Space, base: nat, ord: nat): set<Node> {
    set m | m in tree && m in info && info[m].space == s && Meets(info[m].base, info[m].order, base, ord)
      && EndsBehind(info, m, base)
  }

  /** `n` falls to the round for `m`. */
  ghost predicate FallsTo(kin: Kin, info: Infos, base: nat, ord: nat, self: bool, m: Node, n: Node) {
    m in info
    && var (b, o) := Common(info[m].base, info[m].order, base, ord);
    b >= info[m].base && Picked(kin, info, self, m, b - info[m].base + info[m].phys, o, n)
  }

  /** The nodes that fall to one of the rounds in `seen`. */
  ghost function Selected(kin: Kin, info: Infos, tree: set<Node>, seen: set<Node>, base: nat, ord: nat,
                          self: bool): set<Node> {
    set n | n in tree && exists m :: m in seen && FallsTo(kin, info, base, ord, self, m, n)
  }

  /** The rounds in `seen` are done: what they did to rights and trees. */
  ghost predicate Swept(kin: Kin, info: Infos, attr0: Attrs, attr: Attrs, tree0: set<Node>, tree: set<Node>,
                        seen: set<Node>, base: nat, ord: nat, self: bool, mask: Rights) {
    var picks := Selected(kin, info, tree0, seen, base, ord, self);
    && Stripped(attr0, attr, picks, mask) && Closed(kin, tree0, picks)
    && tree <= tree0
    && forall n | n in tree0 :: n in attr0 && (n in tree <==> attr[n] != {} || (attr0[n] == {} && n !in seen))
  }

  /** The rounds done so far are for nodes that end at or before `addr`, and for all such nodes that are left. */
  ghost predicate SeenBelow(info: Infos, tree: set<Node>, hits: set<Node>, seen: set<Node>, addr: nat) {
    && seen <= hits
    && (forall m | m in seen :: m in info && !EndsBehind(info, m, addr))
    && (forall m | m in hits && m in tree && m !in seen :: m in info && EndsBehind(info, m, addr))
  }

  ghost predicate AllSeen(tree: set<Node>, hits: set<Node>, seen: set<Node>) {
    forall m | m in hits && m in tree :: m in seen
  }

  /** Aligned blocks meet when each starts before the other ends. */
  lemma MeetsByEnds(a: nat, i: nat, b: nat, j: nat)
    requires AlignedBy(a, i) && AlignedBy(b, j)
    ensures Meets(a, i, b, j) <==> a < b + Pow2(j) && b < a + Pow2(i)
    ensures Meets(a, i, b, j) ==> Common(a, i, b, j).0 == Max(a, b)
  {
    hide Meets, Common, AlignedBy, Pow2;
    MeetsIsOverlap(a, i, b, j);
    if a < b + Pow2(j) && b < a + Pow2(i) { assert InRange(a, i, Max(a, b)) && InRange(b, j, Max(a, b)); }
  }

  lemma RevokeStart(kin: Kin, info: Infos, attr: Attrs, tree: set<Node>, s: Space, base: nat, ord: nat, self: bool,
                    mask: Rights)
    requires Rightful(attr, kin, tree)
    ensures Swept(kin, info, attr, attr, tree, tree, {}, base, ord, self, mask)
    ensures SeenBelow(info, tree, Hits(info, tree, s, base, ord), {}, base)
  {
    hide Meets, Common, Pow2, Picked, Derived;
    assert Selected(kin, info, tree, {}, base, ord, self) == {};
  }

  /** The start of the aligned block of order `ord` that holds `base`. */
  function Down(base: nat, ord: nat): (r: nat)
    ensures r <= base && AlignedBy(r, ord) && base < r + Pow2(ord)
  {
    DownAligned(base, Pow2(ord));
    base - base % Pow2(ord)
  }

  lemma DownAligned(base: nat, p: nat)
    requires p >= 1
    ensures 0 <= base % p <= base && base % p < p && (base - base % p) % p == 0
  {
    var q := base / p;
    assert base == q * p + base % p;
    DivModUnique(q, 0, p);
  }

  /** For the comparison of blocks, a window counts as the aligned block around its base. */
  lemma MeetsDown(a: nat, i: nat, base: nat, ord: nat)
    ensures Meets(a, i, base, ord) <==> Meets(a, i, Down(base, ord), ord)
  {
    hide Pow2, Xor, Down;
    var k, d := Max(i, ord), Down(base, ord);
    XorBlocks(a, base, k);
    XorBlocks(a, d, k);
    BlockOfDown(base, ord, k);
  }

  lemma BlockOfDown(base: nat, ord: nat, k: nat)
    requires ord <= k
    ensures Down(base, ord) / Pow2(k) == base / Pow2(k)
  {
    hide Pow2, Down;
    var d, e := Down(base, ord), Down(base, k);
    SameBlock(base, e, k);
    if d < e { BlockEnd(d, e, ord, k); }
    SameBlock(d, e, k);
  }

  lemma LookupNone(info: Infos, tree0: set<Node>, tree: set<Node>, s: Space, base: nat, ord: nat, addr: nat,
                   seen: set<Node>)
    requires IsLookup(info, tree, s, addr, None) && SeenBelow(info, tree, Hits(info, tree0, s, base, ord), seen, addr)
    ensures AllSeen(tree, Hits(info, tree0, s, base, ord), seen)
  {
    hide Meets, Pow2;
  }

  /** Two nodes of one space: the one with the lower base ends before the other starts. */
  lemma InOrder(info: Infos, tree: set<Node>, m: Node, n: Node)
    requires Ranges(info, tree) && m in tree && n in tree && m != n && info[m].space == info[n].space
    requires info[m].base <= info[n].base
    ensures info[m].base + Pow2(info[m].order) <= info[n].base
  {
    hide Meets, AlignedBy, Pow2;
    assert AlignedInfo(info[m]) && AlignedInfo(info[n]);
    MeetsByEnds(info[m].base, info[m].order, info[n].base, info[n].order);
  }

  /** If the node found misses the window, so do all further ones. */
  lemma LookupApart(info: Infos, tree0: set<Node>, tree: set<Node>, s: Space, base: nat, ord: nat, addr: nat,
                    seen: set<Node>, m: Node)
    requires Ranges(info, tree) && base <= addr && IsLookup(info, tree, s, addr, Some(m))
    requires SeenBelow(info, tree, Hits(info, tree0, s, base, ord), seen, addr)
    requires !Meets(info[m].base, info[m].order, base, ord)
    ensures AllSeen(tree, Hits(info, tree0, s, base, ord), seen)
  {
    hide Meets, AlignedBy, Pow2, Down;
    var d := Down(base, ord);
    forall n | n in Hits(info, tree0, s, base, ord) && n in tree ensures n in seen {
      if n !in seen {
        assert AlignedInfo(info[m]) && AlignedInfo(info[n]);
        InOrder(info, tree, m, n);
        MeetsDown(info[n].base, info[n].order, base, ord);
        MeetsDown(info[m].base, info[m].order, base, ord);
        MeetsByEnds(info[n].base, info[n].order, d, ord);
        MeetsByEnds(info[m].base, info[m].order, d, ord);
      }
    }
  }

  /** The node found is a new hit. */
  lemma RoundHit(info: Infos, tree0: set<Node>, tree: set<Node>, s: Space, base: nat, ord: nat, addr: nat,
                 seen: set<Node>, m: Node)
    requires Ranges(info, tree) && (m in tree ==> m in tree0)
    requires IsLookup(info, tree, s, addr, Some(m)) && base <= addr
    requires SeenBelow(info, tree, Hits(info, tree0, s, base, ord), seen, addr)
    requires Meets(info[m].base, info[m].order, base, ord)
    ensures m in tree && m in Hits(info, tree0, s, base, ord) && m !in seen
    ensures Common(info[m].base, info[m].order, base, ord).0 >= info[m].base
    ensures SeenBelow(info, tree, Hits(info, tree0, s, base, ord), seen + {m}, info[m].base + Pow2(info[m].order))
    ensures base <= info[m].base + Pow2(info[m].order)
  {
    hide Meets, AlignedBy, Pow2;
    OrAtLeastRight(base, info[m].base);
    forall n | n in Hits(info, tree0, s, base, ord) && n in tree && n !in seen + {m}
      ensures EndsBehind(info, n, info[m].base + Pow2(info[m].order))
    {
      InOrder(info, tree, m, n);
    }
  }

  lemma {:induction false} OrAtLeastRight(a: nat, b: nat)
    ensures b <= Or(a, b)
    decreases a + b
  {
    if a > 0 && b > 0 { OrAtLeastRight(a / 2, b / 2); }
  }

  lemma PhysHit(phys: nat, order: nat, off: nat, o: nat)
    requires AlignedBy(phys, order) && off < Pow2(order) && o <= order
    ensures Meets(phys, order, off + phys, o)
  {
    hide Pow2, Xor;
    XorBlocks(phys, off + phys, order);
    SameBlock(off + phys, phys, order);
  }

  /** One more round. Nodes that went earlier had nothing left to strip, and neither had what derived from them. */
  lemma SweptStep(kin: Kin, info: Infos, attr0: Attrs, attr1: Attrs, attr2: Attrs, tree0: set<Node>, tree1: set<Node>,
                  tree2: set<Node>, seen: set<Node>, base: nat, ord: nat, self: bool, mask: Rights, m: Node)
    requires Swept(kin, info, attr0, attr1, tree0, tree1, seen, base, ord, self, mask) && m in info
    requires var (b, o) := Common(info[m].base, info[m].order, base, ord);
             b >= info[m].base && Stripped(attr1, attr2,
                                           Picks(kin, info, tree1, self, m, b - info[m].base + info[m].phys, o), mask)
    requires tree2 <= tree1
    requires forall n | n in tree1 ::
             n in attr1 && n in attr2 && (n in tree2 <==> attr2[n] != {} || (attr1[n] == {} && n != m))
    ensures Swept(kin, info, attr0, attr2, tree0, tree2, seen + {m}, base, ord, self, mask)
  {
    hide Common, Picked, Derived;
    var (b, o) := Common(info[m].base, info[m].order, base, ord);
    var lo := b - info[m].base + info[m].phys;
    var picks, more := Selected(kin, info, tree0, seen, base, ord, self), Picks(kin, info, tree0, self, m, lo, o);
    SelectedMore(kin, info, tree0, seen, base, ord, self, m);
    PicksClosed(kin, info, tree0, self, m, lo, o);
  }

  /** Index `x` of the window belongs to node `m`. */
  ghost predicate Shares(info: Infos, m: Node, s: Space, base: nat, ord: nat, x: nat) {
    m in info && info[m].space == s && InRange(info[m].base, info[m].order, x) && InRange(base, ord, x)
  }

  /** Node `c` holds the physical counterpart of index `x` of `m`. */
  ghost predicate Backs(info: Infos, m: Node, c: Node, x: nat) {
    m in info && c in info && x >= info[m].base && InRange(info[c].phys, info[c].order, x - info[m].base + info[m].phys)
  }

  /**
   What `revoke` selects, address by address: with `self`, everything derived from a node that shares an index with the
   window; otherwise everything derived from a child that holds the counterpart of such an index.
   */
  lemma SelectedMeaning(kin: Kin, info: Infos, attr: Attrs, tree: set<Node>, next: Links, prev: Links, rings: Lists,
                        home: Homes, s: Space, base: nat, ord: nat, self: bool, n: Node)
    requires Forest(next, prev, kin, attr, rings, home, tree) && Ranges(info, tree) && AlignedBy(base, ord) && n in tree
    ensures self ==> (n in Selected(kin, info, tree, Hits(info, tree, s, base, ord), base, ord, true) <==>
                      exists m, x :: m in tree && Shares(info, m, s, base, ord, x) && Derived(kin, m, n))
    ensures !self ==> (n in Selected(kin, info, tree, Hits(info, tree, s, base, ord), base, ord, false) <==>
                       exists m, c, x :: m in tree && Shares(info, m, s, base, ord, x) && c in kin.prnt
                         && kin.prnt[c] == m
                                      && Backs(info, m, c, x) && Derived(kin, c, n))
  {
    hide Forest, Meets, AlignedBy, Pow2, Derived, Common, Picked;
    var hits := Hits(info, tree, s, base, ord);
    forall m | m in tree ensures m in hits <==> exists x :: Shares(info, m, s, base, ord, x) {
      HitMeaning(info, tree, s, base, ord, m);
    }
    forall m | m in hits
      ensures self ==> (FallsTo(kin, info, base, ord, self, m, n) <==> Derived(kin, m, n))
      ensures !self ==> (FallsTo(kin, info, base, ord, self, m, n) <==>
                         exists c, x :: Shares(info, m, s, base, ord, x) && c in kin.prnt && kin.prnt[c] == m
                           && Backs(info, m, c, x) && Derived(kin, c, n))
    {
      FallMeaning(kin, info, attr, tree, next, prev, rings, home, s, base, ord, self, m, n);
    }
  }

  lemma HitMeaning(info: Infos, tree: set<Node>, s: Space, base: nat, ord: nat, m: Node)
    requires Ranges(info, tree) && AlignedBy(base, ord) && m in tree
    ensures m in Hits(info, tree, s, base, ord) <==> exists x :: Shares(info, m, s, base, ord, x)
  {
    hide Meets, AlignedBy, Pow2;
    assert AlignedInfo(info[m]);
    MeetsIsOverlap(info[m].base, info[m].order, base, ord);
    MeetsByEnds(info[m].base, info[m].order, base, ord);
    if m in Hits(info, tree, s, base, ord) {
      var x: nat :| InRange(info[m].base, info[m].order, x) && InRange(base, ord, x);
      assert Shares(info, m, s, base, ord, x);
    }
  }

  lemma FallMeaning(kin: Kin, info: Infos, attr: Attrs, tree: set<Node>, next: Links, prev: Links, rings: Lists,
                    home: Homes, s: Space, base: nat, ord: nat, self: bool, m: Node, n: Node)
    requires Forest(next, prev, kin, attr, rings, home, tree) && Ranges(info, tree) && AlignedBy(base, ord) && n in tree
    requires m in Hits(info, tree, s, base, ord)
    ensures self ==> (FallsTo(kin, info, base, ord, self, m, n) <==> Derived(kin, m, n))
    ensures !self ==> (FallsTo(kin, info, base, ord, self, m, n) <==>
                       exists c, x :: Shares(info, m, s, base, ord, x) && c in kin.prnt && kin.prnt[c] == m
                         && Backs(info, m, c, x) && Derived(kin, c, n))
  {
    hide Forest, Meets, AlignedBy, Pow2, Derived, Common, AlignedInfo;
    assert AlignedInfo(info[m]);
    BaseOfCommon(info[m], base, ord);
    if self {
      InfoAligned(info[m]);
      MeetsByEnds(info[m].base, info[m].order, base, ord);
      PhysHit(info[m].phys, info[m].order, Max(info[m].base, base) - info[m].base, Min(info[m].order, ord));
    } else {
      var (b, o) := Common(info[m].base, info[m].order, base, ord);
      var lo := b - info[m].base + info[m].phys;
      var hit := (c: Node) => PhysMeets(info, lo, o, c);
      forall c | Derived(kin, c, n) ensures c in tree {
        AncestorIn(next, prev, kin, attr, rings, home, tree, c, n);
      }
      forall c | c in tree
        ensures PhysMeets(info, lo, o, c) <==> exists x :: Shares(info, m, s, base, ord, x) && Backs(info, m, c, x)
      {
        assert AlignedInfo(info[c]);
        BackMeaning(info, m, c, s, base, ord);
      }
      if FallsTo(kin, info, base, ord, self, m, n) {
        var c :| HitChild(kin, hit, m, c) && Derived(kin, c, n);
      }
      if c: Node, x: nat :| Shares(info, m, s, base, ord, x) && c in kin.prnt && kin.prnt[c] == m
                            && Backs(info, m, c, x) && Derived(kin, c, n) {
        assert HitChild(kin, hit, m, c);
      }
    }
  }

  lemma InfoAligned(f: Info)
    requires AlignedInfo(f)
    ensures AlignedBy(f.base, f.order) && AlignedBy(f.phys, f.order)
  {
  }

  lemma BaseOfCommon(f: Info, base: nat, ord: nat)
    requires AlignedInfo(f) && AlignedBy(base, ord) && Meets(f.base, f.order, base, ord)
    ensures Common(f.base, f.order, base, ord) == (Max(f.base, base), Min(f.order, ord))
  {
    hide Meets, AlignedBy, Pow2;
    MeetsByEnds(f.base, f.order, base, ord);
  }

  lemma AncestorIn(next: Links, prev: Links, kin: Kin, attr: Attrs, rings: Lists, home: Homes, tree: set<Node>, c: Node,
                   n: Node)
    requires Forest(next, prev, kin, attr, rings, home, tree) && n in tree && Derived(kin, c, n)
    ensures c in tree
  {
    hide Preorder, IsRing, Derived, Forest;
    var k := HomeOf(next, prev, kin, attr, rings, home, tree, n);
    var q := AncestorAt(kin, attr, rings[home[n]], c, k);
  }

  lemma BackMeaning(info: Infos, m: Node, c: Node, s: Space, base: nat, ord: nat)
    requires m in info && c in info && info[m].space == s && AlignedInfo(info[m]) && AlignedInfo(info[c])
    requires AlignedBy(base, ord)
    requires Meets(info[m].base, info[m].order, base, ord)
    ensures PhysMeets(info, Max(info[m].base, base) - info[m].base + info[m].phys, Min(info[m].order, ord), c)
       <==> exists x :: Shares(info, m, s, base, ord, x) && Backs(info, m, c, x)
  {
    hide Meets, AlignedBy, Pow2;
    var f, g := info[m], info[c];
    var w := Window(f.space, base, base, ord, {}, {});
    ImageFacts(f, w);
    var lo, o := Max(f.base, base) - f.base + f.phys, Min(f.order, ord);
    MeetsIsOverlap(g.phys, g.order, lo, o);
    MeetsIsOverlap(f.base, f.order, base, ord);
    if PhysMeets(info, lo, o, c) {
      var y: nat :| InRange(g.phys, g.order, y) && InRange(lo, o, y);
      var x := y - f.phys + f.base;
      assert InRange(Max(f.base, base), o, x);
      assert Shares(info, m, s, base, ord, x) && Backs(info, m, c, x);
    }
    if x: nat :| Shares(info, m, s, base, ord, x) && Backs(info, m, c, x) {
      assert InRange(Max(f.base, base), o, x);
      assert InRange(lo, o, x - f.base + f.phys);
    }
  }

  lemma SelectedMore(kin: Kin, info: Infos, tree: set<Node>, seen: set<Node>, base: nat, ord: nat, self: bool, m: Node)
    requires m in info && Common(info[m].base, info[m].order, base, ord).0 >= info[m].base
    ensures var (b, o) := Common(info[m].base, info[m].order, base, ord);
            Selected(kin, info, tree, seen + {m}, base, ord, self) ==
            Selected(kin, info, tree, seen, base, ord, self) + Picks(kin, info, tree, self, m,
                     b - info[m].base + info[m].phys, o)
  {
    hide Common, Picked;
    var (b, o) := Common(info[m].base, info[m].order, base, ord);
    var lo := b - info[m].base + info[m].phys;
    forall n | n in tree
      ensures n in Selected(kin, info, tree, seen + {m}, base, ord, self) <==>
              n in Selected(kin, info, tree, seen, base, ord, self) || n in Picks(kin, info, tree, self, m, lo, o)
    {
      if n in Picks(kin, info, tree, self, m, lo, o) { assert FallsTo(kin, info, base, ord, self, m, n); }
    }
  }

  /** The nodes that went before their own round select nothing that was not stripped already. */
  lemma SweptEnd(kin: Kin, info: Infos, attr0: Attrs, attr: Attrs, tree0: set<Node>, tree: set<Node>, next: Links,
                 prev: Links, rings: Lists, home: Homes, s: Space, base: nat, ord: nat, self: bool, mask: Rights,
                 seen: set<Node>)
    requires Forest(next, prev, kin, attr0, rings, home, tree0)
    requires Swept(kin, info, attr0, attr, tree0, tree, seen, base, ord, self, mask)
    requires var hits := Hits(info, tree0, s, base, ord); AllSeen(tree, hits, seen) && seen <= hits
    ensures Stripped(attr0, attr, Selected(kin, info, tree0, Hits(info, tree0, s, base, ord), base, ord, self), mask)
    ensures tree <= tree0
    ensures forall n | n in tree0 :: n in attr0 && n in attr
    ensures forall n | n in tree0 :: n in tree <==>
            attr[n] != {} || (attr0[n] == {} && n !in Hits(info, tree0, s, base, ord))
  {
    hide Forest, Picked, Derived, Common, Meets;
    var hits := Hits(info, tree0, s, base, ord);
    var picks, all := Selected(kin, info, tree0, seen, base, ord, self),
      Selected(kin, info, tree0, hits, base, ord, self);
    forall n | n in all ensures n in picks {
      var m :| m in hits && FallsTo(kin, info, base, ord, self, m, n);
      if m !in seen {
        assert m in tree0 && m !in tree && m in picks;
        FallsDerived(kin, info, attr0, tree0, next, prev, rings, home, base, ord, self, m, n);
      }
    }
    assert all == picks;
  }

  lemma FallsDerived(kin: Kin, info: Infos, attr: Attrs, tree: set<Node>, next: Links, prev: Links, rings: Lists,
                     home: Homes, base: nat, ord: nat, self: bool, m: Node, n: Node)
    requires Forest(next, prev, kin, attr, rings, home, tree) && n in tree && m in tree
    requires FallsTo(kin, info, base, ord, self, m, n)
    ensures Derived(kin, m, n)
  {
    hide Picked, Derived, Common, Forest;
    var (b, o) := Common(info[m].base, info[m].order, base, ord);
    var i := HomeOf(next, prev, kin, attr, rings, home, tree, m);
    PickedHome(next, prev, kin, attr, rings, home, tree, info, self, m, b - info[m].base + info[m].phys, o, n);
  }

  lemma Asserted(kin: Kin, attr: Attrs, next: Links, prev: Links, r: seq<Node>, m: Node, j: nat)
    requires IsRing(next, prev, r) && Preorder(kin, attr, r) && SubtreeEnd(kin, r, m, j)
    ensures m in kin.dpth && r[j] in kin.dpth && r[j] in next && next[r[j]] in kin.dpth
    ensures kin.dpth[next[r[j]]] <= kin.dpth[m] <= kin.dpth[r[j]]
  {
    hide Preorder, IsRing;
    Neighbours(next, prev, r, j);
    var i :| 0 <= i <= j < |r| && r[i] == m && Deeper(kin, r, i, j)
      && (j + 1 < |r| ==> Depth(kin, r[j + 1]) <= Depth(kin, m));
    RingNodes(kin, attr, r, {}, i);
    RingNodes(kin, attr, r, {}, j);
    RingNodes(kin, attr, r, {}, After(j, |r|));
  }

  lemma HomeRing(next: Links, prev: Links, kin: Kin, attr: Attrs, rings: Lists, home: Homes, tree: set<Node>,
                 m: Node) returns (r: seq<Node>)
    requires Forest(next, prev, kin, attr, rings, home, tree) && m in tree
    ensures m in home && home[m] < |rings| && r == rings[home[m]] && m in kin.dpth
    ensures IsRing(next, prev, r) && Preorder(kin, attr, r)
    ensures forall k | 0 <= k < |r| :: r[k] in tree
  {
    var i := HomeOf(next, prev, kin, attr, rings, home, tree, m);
    r := rings[home[m]];
  }

  lemma TailAt(kin: Kin, attr: Attrs, r: seq<Node>, m: Node, i: int, j: int)
    requires Tail(kin, attr, r, m, i, j)
    ensures r[i] == m
  {
  }

  lemma WithoutFacts(r: seq<Node>, j: nat)
    requires NoDup(r) && j < |r|
    ensures |Without(r, j)| == |r| - 1 && r[j] !in Without(r, j)
    ensures forall k | 0 <= k < j :: Without(r, j)[k] == r[k]
  {
    WithoutMembers(r, j);
  }

  lemma RightfulAt(attr: Attrs, kin: Kin, tree: set<Node>)
    requires Rightful(attr, kin, tree)
    ensures forall n | n in tree :: n in attr
  {
  }

  // ---------------------------------------------------------------- unlinking

  /** Picked nodes take everything derived from them along. */
  ghost predicate Closed(kin: Kin, tree: set<Node>, picks: set<Node>) {
    forall m, n {:trigger Derived(kin, m, n)} | m in picks && n in tree && Derived(kin, m, n) :: n in picks
  }

  lemma PicksClosed(kin: Kin, info: Infos, tree: set<Node>, self: bool, m: Node, lo: nat, o: nat)
    ensures Closed(kin, tree, Picks(kin, info, tree, self, m, lo, o))
  {
    hide Derived, PhysMeets;
    forall a, n | a in Picks(kin, info, tree, self, m, lo, o) && n in tree && Derived(kin, a, n)
      ensures Picked(kin, info, self, m, lo, o, n)
    {
      if self {
        DerivedTrans(kin, m, a, n);
      } else {
        var hit := (c: Node) => PhysMeets(info, lo, o, c);
        var c :| HitChild(kin, hit, m, c) && Derived(kin, c, a);
        DerivedTrans(kin, c, a, n);
      }
    }
  }

  /** Stripping a closed set keeps every list in preorder with narrowing rights. */
  lemma StripForest(next: Links, prev: Links, kin: Kin, attr: Attrs, attr': Attrs, rings: Lists, home: Homes,
                    tree: set<Node>, picks: set<Node>, mask: Rights)
    requires Forest(next, prev, kin, attr, rings, home, tree) && Stripped(attr, attr', picks, mask)
    requires Closed(kin, tree, picks)
    ensures Forest(next, prev, kin, attr', rings, home, tree)
  {
    hide Preorder, IsRing, Stripped, Closed;
    forall h | 0 <= h < |rings|
      ensures RingOk(next, prev, kin, attr', rings[h])
    {
      var r := rings[h];
      assert RingOk(next, prev, kin, attr, r);
      if r != [] {
        forall n | n in r ensures n in tree { }
        StripPreorder(kin, attr, attr', r, tree, picks, mask);
      }
    }
  }

  lemma StripPreorder(kin: Kin, attr: Attrs, attr': Attrs, r: seq<Node>, tree: set<Node>, picks: set<Node>,
                      mask: Rights)
    requires Preorder(kin, attr, r) && Stripped(attr, attr', picks, mask) && Closed(kin, tree, picks)
    requires forall n | n in r :: n in tree
    ensures Preorder(kin, attr', r)
  {
    forall j | 0 < j < |r|
      ensures Narrows(kin, attr', r, j)
    {
      assert HasParent(kin, r, j) && Narrows(kin, attr, r, j);
      var p :| ParentAt(kin, r, p, j);
      assert Derived(kin, r[p], r[p]);
      assert Derived(kin, r[p], r[j]);
    }
  }

  // ------------------------------------------------------------- delegation

  /** What a delegation asks for: where to, which window, which rights and subspaces. */
  datatype Window = Window(rcv: Space, sbase: nat, rbase: nat, ord: nat, a: Rights, sub: set<Table>)

  /** Objects have order 0, so that any place in the receiver's space will do for them. */
  predicate AlignedWindow(w: Window) {
    AlignedBy(w.sbase, w.ord) && (w.rcv.Ports? ==> AlignedBy(w.rbase, w.ord))
  }

  /** Within one space, both windows are aligned or they are apart: no copy then lands in the window of the walk. */
  predicate LandsOutside(snd: Space, w: Window) {
    w.rcv == snd ==> AlignedBy(w.rbase, w.ord) || w.rbase + Pow2(w.ord) <= w.sbase || w.sbase + Pow2(w.ord) <= w.rbase
  }

  /** Delegation is between object spaces or between port spaces. */
  predicate SameKind(s: Space, t: Space) {
    s.Objects? == t.Objects?
  }

  /** The part of the node inside the window, moved into the receiver's window. */
  function Image(f: Info, w: Window): Info {
    var (b, o) := Common(f.base, f.order, w.sbase, w.ord);
    Info(w.rcv, Diff(b, f.base) + f.phys, Diff(b, w.sbase) + w.rbase, o, w.sub)
  }

  function Diff(a: nat, b: nat): nat {
    if a < b then 0 else a - b
  }

  ghost predicate IsCopy(info: Infos, attr: Attrs, kin: Kin, m: Node, n: Node, w: Window) {
    && n in kin.prnt && kin.prnt[n] == m && m in info && n in info && info[n] == Image(info[m], w)
    && m in attr && n in attr && attr[n] == attr[m] * w.a
  }

  ghost predicate Refused(info: Infos, attr: Attrs, tree: set<Node>, m: Node, w: Window) {
    m in info && m in attr && (Clash(info, tree, Image(info[m], w)) || attr[m] * w.a == {})
  }

  /** The nodes in `seen` have been delegated. */
  ghost predicate Copied(info: Infos, info': Infos, attr: Attrs, attr': Attrs, kin: Kin, kin': Kin, tree: set<Node>,
                         tree': set<Node>, snd: Space, seen: set<Node>, w: Window) {
    && Grown(info, info', attr, attr', kin, kin', tree, tree') && seen <= Hits(info, tree, snd, w.sbase, w.ord)
    && (forall n | n in tree' && n !in tree :: NewFor(info', attr', kin', seen, n, w) && Outside(info', snd, n, w))
    && (forall m | m in seen :: Refused(info, attr, tree, m, w) || HasCopy(info', attr', kin', tree, tree', m, w))
  }

  ghost predicate NewFor(info: Infos, attr: Attrs, kin: Kin, seen: set<Node>, n: Node, w: Window) {
    exists m :: m in seen && IsCopy(info, attr, kin, m, n, w)
  }

  ghost predicate HasCopy(info: Infos, attr: Attrs, kin: Kin, tree: set<Node>, tree': set<Node>, m: Node, w: Window) {
    exists n :: n in tree' && n !in tree && IsCopy(info, attr, kin, m, n, w)
  }

  /** A new node is not itself in the sender's window. */
  ghost predicate Outside(info: Infos, snd: Space, n: Node, w: Window) {
    n in info && !(info[n].space == snd && Meets(info[n].base, info[n].order, w.sbase, w.ord))
  }

  lemma LookupFound(info: Infos, tree: set<Node>, s: Space, addr: nat, m: Node)
    requires IsLookup(info, tree, s, addr, Some(m))
    ensures m in tree && m in info && info[m].space == s
  {
  }

  lemma HitEnds(info: Infos, tree: set<Node>, s: Space, base: nat, ord: nat, m: Node)
    requires m in Hits(info, tree, s, base, ord)
    ensures m in info && EndsBehind(info, m, base)
  {
  }

  lemma DelegateStart(info: Infos, attr: Attrs, kin: Kin, tree: set<Node>, snd: Space, w: Window)
    requires Ranges(info, tree) && Rightful(attr, kin, tree)
    ensures Copied(info, info, attr, attr, kin, kin, tree, tree, snd, {}, w)
    ensures SeenBelow(info, tree, Hits(info, tree, snd, w.sbase, w.ord), {}, w.sbase)
  {
    hide Meets, Swept, AlignedInfo, Pow2;
    RevokeStart(kin, info, attr, tree, snd, w.sbase, w.ord, false, {});
  }

  lemma HitIsOld(info: Infos, info': Infos, attr: Attrs, attr': Attrs, kin: Kin, kin': Kin, tree: set<Node>,
                 tree': set<Node>, snd: Space, seen: set<Node>, w: Window, m: Node)
    requires Copied(info, info', attr, attr', kin, kin', tree, tree', snd, seen, w)
    requires m in tree' && info'[m].space == snd && Meets(info'[m].base, info'[m].order, w.sbase, w.ord)
    ensures m in tree
  {
    hide Meets, IsCopy;
  }

  /** The common part lies in the node and in the window, and its image in the receiver's window. */
  lemma ImageFacts(f: Info, w: Window)
    requires AlignedInfo(f) && AlignedWindow(w) && Meets(f.base, f.order, w.sbase, w.ord) && SameKind(f.space, w.rcv)
    ensures var g, b := Image(f, w), Max(f.base, w.sbase);
            && AlignedInfo(g) && g.base == b - w.sbase + w.rbase && g.phys == b - f.base + f.phys
            && g.order == Min(f.order, w.ord) && g.space == w.rcv && g.sub == w.sub
            && b + Pow2(g.order) <= f.base + Pow2(f.order) && b + Pow2(g.order) <= w.sbase + Pow2(w.ord)
            && AlignedBy(b, g.order)
  {
    hide Pow2, Meets, AlignedBy, Common;
    var b, o := Max(f.base, w.sbase), Min(f.order, w.ord);
    MeetsByEnds(f.base, f.order, w.sbase, w.ord);
    CommonOrder(f.base, f.order, w.sbase, w.ord);
    AlignedDown(f.base, f.order, o);
    AlignedDown(f.phys, f.order, o);
    AlignedDown(w.sbase, w.ord, o);
    if w.rcv.Ports? { AlignedDown(w.rbase, w.ord, o); } else { AnyAligned(w.rbase); }
    AlignedSum(b, f.base, o);
    AlignedSum(b - f.base, f.phys, o);
    AlignedSum(b, w.sbase, o);
    AlignedSum(b - w.sbase, w.rbase, o);
    if f.order <= w.ord { Nested(f.base, f.order, w.sbase, w.ord); } else { Nested(w.sbase, w.ord, f.base, f.order); }
  }

  lemma CommonOrder(a: nat, i: nat, b: nat, j: nat)
    ensures Common(a, i, b, j).1 == Min(i, j)
  {
  }

  lemma AnyAligned(a: nat)
    ensures AlignedBy(a, 0)
  {
  }

  lemma ImageAligned(info: Infos, tree: set<Node>, m: Node, w: Window)
    requires Ranges(info, tree) && m in tree && AlignedWindow(w)
    requires Meets(info[m].base, info[m].order, w.sbase, w.ord) && SameKind(info[m].space, w.rcv)
    ensures AlignedInfo(Image(info[m], w))
  {
    hide Meets, AlignedBy, Image, AlignedInfo;
    ImageFacts(info[m], w);
  }

  /** A copy that fell back into the sender's window would clash with its own original. */
  lemma ImageOutside(info: Infos, tree: set<Node>, snd: Space, m: Node, w: Window)
    requires Ranges(info, tree) && AlignedWindow(w) && m in tree && info[m].space == snd && SameKind(snd, w.rcv)
    requires LandsOutside(snd, w)
    requires Meets(info[m].base, info[m].order, w.sbase, w.ord) && !Clash(info, tree, Image(info[m], w))
    ensures w.rcv == snd ==> !Meets(Image(info[m], w).base, Image(info[m], w).order, w.sbase, w.ord)
  {
    hide Meets, AlignedBy, Image, Pow2;
    var f, g := info[m], Image(info[m], w);
    assert AlignedInfo(f);
    ImageFacts(f, w);
    ImageSpace(f, w);
    if w.rcv == snd && Meets(g.base, g.order, w.sbase, w.ord) {
      MeetsByEnds(g.base, g.order, w.sbase, w.ord);
      if AlignedBy(w.rbase, w.ord) {
        Nested(w.sbase, w.ord, w.rbase, w.ord);
        Nested(w.rbase, w.ord, w.sbase, w.ord);
      }
      MeetsByEnds(f.base, f.order, g.base, g.order);
    }
  }

  lemma ImageSpace(f: Info, w: Window)
    ensures Image(f, w).space == w.rcv
  {
  }

  /** Copies of different nodes are apart. */
  lemma ImagesApart(info: Infos, tree: set<Node>, m: Node, n: Node, w: Window)
    requires Ranges(info, tree) && AlignedWindow(w) && m in tree && n in tree && m != n
    requires info[m].space == info[n].space
    requires SameKind(info[m].space, w.rcv)
    requires Meets(info[m].base, info[m].order, w.sbase, w.ord) && Meets(info[n].base, info[n].order, w.sbase, w.ord)
    ensures !Meets(Image(info[n], w).base, Image(info[n], w).order, Image(info[m], w).base, Image(info[m], w).order)
  {
    hide Meets, AlignedBy, Image, Pow2;
    assert AlignedInfo(info[m]) && AlignedInfo(info[n]);
    ImageFacts(info[m], w);
    ImageFacts(info[n], w);
    if info[m].base <= info[n].base { InOrder(info, tree, m, n); } else { InOrder(info, tree, n, m); }
    MeetsByEnds(Image(info[n], w).base, Image(info[n], w).order, Image(info[m], w).base, Image(info[m], w).order);
  }

  lemma CopiedStep(info: Infos, info1: Infos, info2: Infos, attr: Attrs, attr1: Attrs, attr2: Attrs, kin: Kin,
                   kin1: Kin, kin2: Kin, tree: set<Node>, tree1: set<Node>, tree2: set<Node>, snd: Space,
                   seen: set<Node>, w: Window, m: Node, x: Node, ok: bool)
    requires Copied(info, info1, attr, attr1, kin, kin1, tree, tree1, snd, seen, w) && Ranges(info1, tree1)
    requires AlignedWindow(w) && SameKind(snd, w.rcv) && LandsOutside(snd, w)
    requires m in tree && m in tree1 && m in info1 && m in attr1 && info1[m].space == snd
    requires EndsBehind(info1, m, w.sbase)
    requires Meets(info1[m].base, info1[m].order, w.sbase, w.ord) && m !in seen
    requires ok == (!Clash(info1, tree1, Image(info1[m], w)) && attr1[m] * w.a != {})
    requires !ok ==> tree2 == tree1 && info2 == info1 && attr2 == attr1 && kin2 == kin1
    requires ok ==> && x !in tree1 && tree2 == tree1 + {x} && info2 == info1[x := Image(info1[m], w)]
                    && attr2 == attr1[x := attr1[m] * w.a] && kin2 == Adopt(kin1, m, x)
    ensures Copied(info, info2, attr, attr2, kin, kin2, tree, tree2, snd, seen + {m}, w)
  {
    if ok {
      MadeCopy(info, info1, info2, attr, attr1, attr2, kin, kin1, kin2, tree, tree1, tree2, snd, seen, w, m, x);
    } else {
      hide Meets, Clash, AlignedInfo, IsCopy, Image, Ranges;
      if attr1[m] * w.a != {} {
        ClashIsOld(info, info1, attr, attr1, kin, kin1, tree, tree1, snd, seen, w, m);
      }
      forall n | n in tree1 && n !in tree ensures NewFor(info1, attr1, kin1, seen + {m}, n, w) { }
    }
  }

  lemma ClashIsOld(info: Infos, info1: Infos, attr: Attrs, attr1: Attrs, kin: Kin, kin1: Kin, tree: set<Node>,
                   tree1: set<Node>, snd: Space, seen: set<Node>, w: Window, m: Node)
    requires Copied(info, info1, attr, attr1, kin, kin1, tree, tree1, snd, seen, w) && Ranges(info1, tree1)
    requires AlignedWindow(w) && SameKind(snd, w.rcv) && LandsOutside(snd, w)
    requires m in tree && m in info1 && info1[m].space == snd && Meets(info1[m].base, info1[m].order, w.sbase, w.ord)
    requires m !in seen
    requires Clash(info1, tree1, Image(info1[m], w))
    ensures Clash(info, tree, Image(info1[m], w))
  {
    hide Meets, Image, Ranges;
    var f := Image(info1[m], w);
    var n :| n in tree1 && n in info1 && info1[n].space == f.space
      && Meets(info1[n].base, info1[n].order, f.base, f.order);
    if n !in tree {
      assert NewFor(info1, attr1, kin1, seen, n, w);
      var m' :| m' in seen && IsCopy(info1, attr1, kin1, m', n, w);
      ImagesApart(info1, tree1, m, m', w);
    }
  }

  lemma MadeCopy(info: Infos, info1: Infos, info2: Infos, attr: Attrs, attr1: Attrs, attr2: Attrs, kin: Kin, kin1: Kin,
                 kin2: Kin, tree: set<Node>, tree1: set<Node>, tree2: set<Node>, snd: Space, seen: set<Node>, w: Window,
                 m: Node, x: Node)
    requires Copied(info, info1, attr, attr1, kin, kin1, tree, tree1, snd, seen, w) && Ranges(info1, tree1)
    requires AlignedWindow(w) && SameKind(snd, w.rcv) && LandsOutside(snd, w)
    requires m in tree && m in tree1 && m in info1 && m in attr1 && info1[m].space == snd
    requires EndsBehind(info1, m, w.sbase)
    requires Meets(info1[m].base, info1[m].order, w.sbase, w.ord)
    requires !Clash(info1, tree1, Image(info1[m], w)) && attr1[m] * w.a != {}
    requires x !in tree1 && tree2 == tree1 + {x} && info2 == info1[x := Image(info1[m], w)]
    requires attr2 == attr1[x := attr1[m] * w.a] && kin2 == Adopt(kin1, m, x)
    ensures Copied(info, info2, attr, attr2, kin, kin2, tree, tree2, snd, seen + {m}, w)
  {
    hide Meets, Clash, Image, Ranges;
    ImageOutside(info1, tree1, snd, m, w);
    ImageSpace(info1[m], w);
    assert IsCopy(info2, attr2, kin2, m, x, w);
    forall n | n in tree2 && n !in tree
      ensures NewFor(info2, attr2, kin2, seen + {m}, n, w) && Outside(info2, snd, n, w)
    {
      if n != x {
        assert NewFor(info1, attr1, kin1, seen, n, w);
        var m' :| m' in seen && IsCopy(info1, attr1, kin1, m', n, w);
        assert IsCopy(info2, attr2, kin2, m', n, w);
      }
    }
    forall k | k in seen + {m} && !Refused(info, attr, tree, k, w)
      ensures HasCopy(info2, attr2, kin2, tree, tree2, k, w)
    {
      if k != m {
        assert HasCopy(info1, attr1, kin1, tree, tree1, k, w);
        var n :| n in tree1 && n !in tree && IsCopy(info1, attr1, kin1, k, n, w);
        assert IsCopy(info2, attr2, kin2, k, n, w);
      }
    }
  }

  lemma GrownIn(info: Infos, info': Infos, attr: Attrs, attr': Attrs, kin: Kin, kin': Kin, tree: set<Node>,
                tree': set<Node>, snd: Space, seen: set<Node>, w: Window)
    requires Copied(info, info', attr, attr', kin, kin', tree, tree', snd, seen, w)
    ensures tree <= tree' && forall n | n in tree' :: n in info' && n in attr'
  {
    hide Meets, IsCopy;
  }

  lemma SeenMore(info1: Infos, info2: Infos, tree0: set<Node>, tree1: set<Node>, tree2: set<Node>, s: Space, base: nat,
                 ord: nat, seen: set<Node>, addr: nat)
    requires SeenBelow(info1, tree1, Hits(info1, tree0, s, base, ord), seen, addr) && tree0 <= tree1
    requires forall n | n in tree0 :: n in info1 && n in info2 && info2[n] == info1[n]
    ensures Hits(info2, tree0, s, base, ord) == Hits(info1, tree0, s, base, ord)
    ensures SeenBelow(info2, tree2, Hits(info2, tree0, s, base, ord), seen, addr)
  {
    hide Meets, Pow2;
  }

  lemma DelegateEnd(info: Infos, info': Infos, attr: Attrs, attr': Attrs, kin: Kin, kin': Kin, tree: set<Node>,
                    tree': set<Node>, snd: Space, seen: set<Node>, w: Window)
    requires Copied(info, info', attr, attr', kin, kin', tree, tree', snd, seen, w) && Ranges(info', tree')
    requires Rightful(attr', kin', tree')
    requires AllSeen(tree', Hits(info, tree, snd, w.sbase, w.ord), seen)
    ensures Grown(info, info', attr, attr', kin, kin', tree, tree')
    ensures forall n | n in tree' && n !in tree ::
              exists m :: m in Hits(info, tree, snd, w.sbase, w.ord) && IsCopy(info', attr', kin', m, n, w)
    ensures forall m | m in Hits(info, tree, snd, w.sbase, w.ord) ::
              !Refused(info, attr, tree, m, w) <==>
                exists n :: n in tree' && n !in tree && IsCopy(info', attr', kin', m, n, w)
  {
    hide Meets, Image, AlignedInfo;
    var hits := Hits(info, tree, snd, w.sbase, w.ord);
    forall n | n in tree' && n !in tree ensures exists m :: m in hits && IsCopy(info', attr', kin', m, n, w) {
      assert NewFor(info', attr', kin', seen, n, w);
    }
    forall m | m in hits
      ensures !Refused(info, attr, tree, m, w) <==>
              exists n :: n in tree' && n !in tree && IsCopy(info', attr', kin', m, n, w)
    {
      assert m in seen;
      if !Refused(info, attr, tree, m, w) { assert HasCopy(info', attr', kin', tree, tree', m, w); }
      if n :| n in tree' && n !in tree && IsCopy(info', attr', kin', m, n, w) { ImageSpace(info[m], w); }
    }
  }

  // ------------------------------------------------------------- new nodes

  /** `tree_insert` refuses a range that meets one of the same space. */
  predicate Clash(info: Infos, tree: set<Node>, f: Info) {
    exists n :: n in tree && n in info && info[n].space == f.space
      && Meets(info[n].base, info[n].order, f.base, f.order)
  }

  /** Old nodes are as they were. */
  ghost predicate Grown(info: Infos, info': Infos, attr: Attrs, attr': Attrs, kin: Kin, kin': Kin, tree: set<Node>,
                        tree': set<Node>) {
    && tree <= tree' && (forall n | n in tree' :: n in info' && n in attr')
    && (forall n | n in tree ::
        n in info && info'[n] == info[n] && n in attr && attr'[n] == attr[n] && SameKin(kin, kin', n))
  }

  ghost predicate SameKin(kin: Kin, kin': Kin, n: Node) {
    && (n in kin.dpth ==> n in kin'.dpth && kin'.dpth[n] == kin.dpth[n])
    && (n in kin.prnt <==> n in kin'.prnt) && (n in kin.prnt ==> kin'.prnt[n] == kin.prnt[n])
  }

  lemma SingleAligned(f: Info)
    requires f.order == 0
    ensures AlignedInfo(f)
  {
  }

  lemma Unused(tree: set<Node>, limit: nat)
    requires Below(tree, limit)
    ensures limit !in tree && Below(tree + {limit}, limit + 1)
  {
  }

  lemma RangesMore(info: Infos, tree: set<Node>, x: Node, f: Info)
    requires Ranges(info, tree) && x !in tree && AlignedInfo(f) && !Clash(info, tree, f)
    ensures Ranges(info[x := f], tree + {x})
  {
    hide AlignedInfo, Meets;
    forall n | n in tree
      ensures Meets(f.base, f.order, info[n].base, info[n].order) <==>
              Meets(info[n].base, info[n].order, f.base, f.order)
    {
      MeetsSym(f.base, f.order, info[n].base, info[n].order);
    }
  }

  lemma MeetsSym(a: nat, i: nat, b: nat, j: nat)
    ensures Meets(a, i, b, j) <==> Meets(b, j, a, i)
  {
    hide Pow2, Xor;
    XorBlocks(a, b, Max(i, j));
    XorBlocks(b, a, Max(i, j));
  }

  lemma RightfulMore(attr: Attrs, kin: Kin, kin': Kin, tree: set<Node>, x: Node, a: Rights)
    requires Rightful(attr, kin, tree) && x !in tree && (a == {} ==> x !in kin'.prnt)
    requires forall n | n in tree :: n in kin'.prnt ==> n in kin.prnt
    ensures Rightful(attr[x := a], kin', tree + {x})
  {
  }

  lemma KernelMore(info: Infos, kin: Kin, kin': Kin, tree: set<Node>, x: Node, f: Info)
    requires KernelRoots(info, kin, tree) && x !in tree && (Kernel(f.space) ==> x !in kin'.prnt)
    requires forall n | n in tree :: n in kin'.prnt ==> n in kin.prnt
    ensures KernelRoots(info[x := f], kin', tree + {x})
  {
  }

  lemma SlotsMore(slots: Slots, slots': Slots, info: Infos, attr: Attrs, tree: set<Node>, x: Node, f: Info, a: Rights)
    requires SlotsOk(slots, info, attr, tree) && x !in tree && Ranges(info[x := f], tree + {x})
    requires Shown(slots, slots', f, Pow2(f.order), CapOf(f, a))
    ensures SlotsOk(slots', info[x := f], attr[x := a], tree + {x})
  {
    hide Meets, Ranges, AlignedInfo;
    var info', attr' := info[x := f], attr[x := a];
    forall m: Node, s: Space, t: Table, i: nat | Holds(info', tree + {x}, m, s, t, i)
      ensures m in attr' && SlotAt(slots', s, t, i) == CapOf(info'[m], attr'[m])
    {
      if m != x {
        assert Holds(info, tree, m, s, t, i);
        if Holds(info', tree + {x}, x, s, t, i) { OneHolder(info', tree + {x}, m, x, s, t, i); }
      }
    }
    forall s: Space, t: Table, i: nat | SlotAt(slots', s, t, i) != Null
      ensures exists m :: Holds(info', tree + {x}, m, s, t, i)
    {
      if s == info'[x].space && t in Tables(info'[x]) && InRange(info'[x].base, info'[x].order, i) {
        assert Holds(info', tree + {x}, x, s, t, i);
      } else {
        var m :| Holds(info, tree, m, s, t, i);
        assert Holds(info', tree + {x}, m, s, t, i);
      }
    }
  }

  /** Lists without the new node and the changed pointers. */
  lemma KeepRing(next: Links, prev: Links, kin: Kin, attr: Attrs, next': Links, prev': Links, kin': Kin, attr': Attrs,
                 r: seq<Node>)
    requires RingOk(next, prev, kin, attr, r)
    requires forall n | n in r && n in next :: n in next' && next'[n] == next[n]
    requires forall n | n in r && n in prev :: n in prev' && prev'[n] == prev[n]
    requires forall n | n in r :: SameKin(kin, kin', n)
    requires forall n | n in r && n in attr :: n in attr' && attr'[n] == attr[n]
    ensures RingOk(next', prev', kin', attr', r)
  {
    if r != [] {
      hide IsRing, Preorder;
      RingKeys(next, prev, r);
      RingFrame(next, prev, next', prev', r);
      KeepPreorder(kin, attr, kin', attr', r);
    }
  }

  lemma KeepPreorder(kin: Kin, attr: Attrs, kin': Kin, attr': Attrs, r: seq<Node>)
    requires Preorder(kin, attr, r)
    requires forall n | n in r :: SameKin(kin, kin', n)
    requires forall n | n in r && n in attr :: n in attr' && attr'[n] == attr[n]
    ensures Preorder(kin', attr', r)
  {
    forall j | 0 <= j < |r|
      ensures Depth(kin', r[j]) == Depth(kin, r[j]) && r[j] in r { assert r[j] in r && SameKin(kin, kin', r[j]); }
    forall j | 0 < j < |r|
      ensures HasParent(kin', r, j) && Climbs(kin', r, j) && Narrows(kin', attr', r, j)
    {
      assert HasParent(kin, r, j) && Climbs(kin, r, j) && Narrows(kin, attr, r, j);
      var p :| ParentAt(kin, r, p, j);
      assert ParentAt(kin', r, p, j);
    }
  }

  /** A new node without parent. */
  function RootKin(kin: Kin, x: Node): Kin {
    Kin(kin.dpth[x := 0], kin.prnt - {x})
  }

  /** What a new root leaves in order, beside the lists. */
  lemma RootMore(slots: Slots, slots': Slots, info: Infos, attr: Attrs, kin: Kin, tree: set<Node>, x: Node, f: Info,
                 a: Rights)
    requires SlotsOk(slots, info, attr, tree) && Ranges(info, tree) && Rightful(attr, kin, tree)
    requires KernelRoots(info, kin, tree)
    requires x !in tree && AlignedInfo(f) && !Clash(info, tree, f)
    requires Shown(slots, slots', f, Pow2(f.order), CapOf(f, a))
    ensures SlotsOk(slots', info[x := f], attr[x := a], tree + {x}) && Ranges(info[x := f], tree + {x})
    ensures Rightful(attr[x := a], RootKin(kin, x), tree + {x})
    ensures KernelRoots(info[x := f], RootKin(kin, x), tree + {x})
  {
    hide SlotsOk, Ranges, Rightful, KernelRoots, AlignedInfo, Clash, Shown, Pow2, CapOf;
    RangesMore(info, tree, x, f);
    RightfulMore(attr, kin, RootKin(kin, x), tree, x, a);
    KernelMore(info, kin, RootKin(kin, x), tree, x, f);
    SlotsMore(slots, slots', info, attr, tree, x, f, a);
  }

  lemma AdoptKin(kin: Kin, m: Node, x: Node, tree: set<Node>)
    requires x !in tree
    ensures forall n | n in tree :: n in Adopt(kin, m, x).prnt ==> n in kin.prnt
  {
  }

  lemma AdoptIs(kin: Kin, m: Node, x: Node)
    requires m in kin.dpth
    ensures Adopt(kin, m, x) == Kin(kin.dpth[x := kin.dpth[m] + 1], kin.prnt[x := m])
  {
  }

  lemma RootForest(next: Links, prev: Links, kin: Kin, attr: Attrs, rings: Lists, home: Homes, tree: set<Node>, x: Node,
                   a: Rights)
    requires Forest(next, prev, kin, attr, rings, home, tree) && x !in tree
    ensures Forest(next[x := x], prev[x := x], RootKin(kin, x), attr[x := a], rings + [[x]], home[x := |rings|],
                   tree + {x})
  {
    hide IsRing, Preorder;
    var next', prev', kin', attr', rings' := next[x := x], prev[x := x], RootKin(kin, x), attr[x := a], rings + [[x]];
    Alone(next', prev', kin', attr', x);
    forall h | 0 <= h < |rings'| ensures RingOk(next', prev', kin', attr', rings'[h]) {
      if h < |rings| {
        assert RingOk(next, prev, kin, attr, rings[h]);
        KeepRing(next, prev, kin, attr, next', prev', kin', attr', rings[h]);
      }
    }
  }

  lemma Alone(next: Links, prev: Links, kin: Kin, attr: Attrs, x: Node)
    requires x in next && next[x] == x && x in prev && prev[x] == x && x in kin.dpth && kin.dpth[x] == 0
    requires x !in kin.prnt
    requires x in attr
    ensures RingOk(next, prev, kin, attr, [x])
  {
    assert LinkedAt(next, prev, [x], 0);
  }

  /** `insert_node`: the new node goes right behind its parent. */
  lemma ChildForest(next: Links, prev: Links, kin: Kin, attr: Attrs, rings: Lists, home: Homes, tree: set<Node>,
                    m: Node, i: nat, x: Node, a: Rights)
    requires Forest(next, prev, kin, attr, rings, home, tree) && x !in tree && m in tree && home[m] < |rings|
    requires i < |rings[home[m]]| && rings[home[m]][i] == m && m in attr && a <= attr[m]
    ensures m in next && next[m] in prev && m in kin.dpth
    ensures Forest(next[x := next[m]][m := x], prev[x := m][next[m] := x], Adopt(kin, m, x), attr[x := a],
                   rings[home[m] := With(rings[home[m]], i + 1, x)], home[x := home[m]], tree + {x})
  {
    hide IsRing, Preorder, Forest, RingOk;
    var r := HomeRing(next, prev, kin, attr, rings, home, tree, m);
    RingNodes(kin, attr, r, tree, i);
    Neighbours(next, prev, r, i);
    LinkAfter(next, prev, r, i, x);
    AdoptPreorder(kin, attr, r, i, x, a);
    WithMembers(r, i + 1, x);
    var next', prev', kin', attr' := next[x := next[m]][m := x], prev[x := m][next[m] := x], Adopt(kin, m, x),
      attr[x := a];
    var h, r' := home[m], With(r, i + 1, x);
    RingIs(next', prev', kin', attr', r');
    assert m in r && next[m] in r;
    forall g | 0 <= g < |rings| && g != h ensures RingOk(next', prev', kin', attr', rings[g]) {
      OtherRing(next, prev, kin, attr, rings, home, tree, g, h);
      forall n | n in rings[g] ensures n in tree { ListedIn(next, prev, kin, attr, rings, home, tree, g, n); }
      KeepRing(next, prev, kin, attr, next', prev', kin', attr', rings[g]);
    }
    ChildMembers(next, prev, kin, attr, next', prev', kin', attr', rings, home, tree, m, r', x);
  }

  lemma RingIs(next: Links, prev: Links, kin: Kin, attr: Attrs, r: seq<Node>)
    requires IsRing(next, prev, r) && Preorder(kin, attr, r)
    ensures RingOk(next, prev, kin, attr, r)
  {
  }

  lemma ListedIn(next: Links, prev: Links, kin: Kin, attr: Attrs, rings: Lists, home: Homes, tree: set<Node>, g: nat,
                 n: Node)
    requires Forest(next, prev, kin, attr, rings, home, tree) && g < |rings| && n in rings[g]
    ensures n in tree
  {
  }

  lemma ChildMembers(next: Links, prev: Links, kin: Kin, attr: Attrs, next': Links, prev': Links, kin': Kin,
                     attr': Attrs, rings: Lists, home: Homes, tree: set<Node>, m: Node, r': seq<Node>, x: Node)
    requires Forest(next, prev, kin, attr, rings, home, tree) && x !in tree && m in tree && home[m] < |rings|
    requires forall y :: y in r' <==> y in rings[home[m]] || y == x
    requires RingOk(next', prev', kin', attr', r')
    requires forall g | 0 <= g < |rings| && g != home[m] :: RingOk(next', prev', kin', attr', rings[g])
    ensures Forest(next', prev', kin', attr', rings[home[m] := r'], home[x := home[m]], tree + {x})
  {
    hide RingOk;
    var rings', home' := rings[home[m] := r'], home[x := home[m]];
    forall h, y | 0 <= h < |rings'| && y in rings'[h] ensures y in home' && home'[y] == h {
      assert y == x || y in rings[h];
    }
    forall y ensures y in tree + {x} <==> y in home' && home'[y] < |rings'| && y in rings'[home'[y]] { }
  }

  // ------------------------------------------------------------ regions of ports

  /** `n` is a root for a part of the range, with the rights `a`. */
  ghost predicate IsRegion(info: Infos, attr: Attrs, kin: Kin, n: Node, lo: nat, hi: nat, a: Rights) {
    && n in info && n in attr && n !in kin.prnt && info[n].space == Ports(0) && info[n].phys == info[n].base
    && attr[n] == a
    && lo <= info[n].base && info[n].base + Pow2(info[n].order) <= hi
  }

  /** No node of the space touches the range. */
  ghost predicate FreeRange(info: Infos, tree: set<Node>, s: Space, lo: nat, hi: nat) {
    forall n | n in tree && n in info && info[n].space == s ::
      info[n].base + Pow2(info[n].order) <= lo || hi <= info[n].base
  }

  /** New nodes cover every index of the range. */
  ghost predicate CoveredRange(info: Infos, tree0: set<Node>, tree: set<Node>, s: Space, lo: nat, hi: nat) {
    forall x: nat | lo <= x < hi :: CoveredAt(info, tree0, tree, s, x)
  }

  ghost predicate CoveredAt(info: Infos, tree0: set<Node>, tree: set<Node>, s: Space, x: nat) {
    exists n :: n in tree && n !in tree0 && n in info && info[n].space == s && InRange(info[n].base, info[n].order, x)
  }

  lemma RegionStart(info: Infos, attr: Attrs, kin: Kin, tree: set<Node>, addr: nat, a: Rights)
    requires Rightful(attr, kin, tree) && Ranges(info, tree)
    ensures forall n | n in tree && n !in tree :: IsRegion(info, attr, kin, n, addr, addr, a)
    ensures Grown(info, info, attr, attr, kin, kin, tree, tree) && CoveredRange(info, tree, tree, Ports(0), addr, addr)
  {
  }

  /** The largest aligned block at `cur` fits into what is left. */
  lemma BlockFits(cur: nat, rest: nat)
    requires rest > 0
    ensures AlignedBy(cur, MaxOrder(cur, rest)) && 1 <= Pow2(MaxOrder(cur, rest)) <= rest
  {
    hide Pow2, BitScanForward, BitScanReverse;
    var o := MaxOrder(cur, rest);
    Pow2Order(o, BitScanReverse(rest));
    if cur > 0 { ForwardIsAlignment(cur, o); } else { DivModUnique(0, 0, Pow2(o)); }
  }

  lemma PortAligned(f: Info)
    requires f.space.Ports? && f.base == f.phys && AlignedBy(f.base, f.order)
    ensures AlignedInfo(f)
  {
  }

  lemma FreeNoClash(info: Infos, tree: set<Node>, f: Info, hi: nat)
    requires Ranges(info, tree) && AlignedInfo(f) && FreeRange(info, tree, f.space, f.base, hi)
    requires f.base + Pow2(f.order) <= hi
    ensures !Clash(info, tree, f)
  {
    hide Meets, Pow2, AlignedBy;
    forall n | n in tree && n in info && info[n].space == f.space
      ensures !Meets(info[n].base, info[n].order, f.base, f.order)
    {
      assert AlignedInfo(info[n]);
      MeetsByEnds(info[n].base, info[n].order, f.base, f.order);
    }
  }

  lemma RegionStep(info0: Infos, info1: Infos, info2: Infos, attr0: Attrs, attr1: Attrs, attr2: Attrs, kin0: Kin,
                   kin1: Kin, kin2: Kin, tree0: set<Node>, tree1: set<Node>, tree2: set<Node>, lo: nat, f: Info,
                   a: Rights, x: Node, ok: bool)
    requires Grown(info0, info1, attr0, attr1, kin0, kin1, tree0, tree1) && lo <= f.base
    requires forall n | n in tree1 && n !in tree0 :: IsRegion(info1, attr1, kin1, n, lo, f.base, a)
    requires f.space == Ports(0) && f.phys == f.base
    requires !ok ==> tree2 == tree1 && info2 == info1 && attr2 == attr1 && kin2 == kin1
    requires ok ==> && x !in tree1 && tree2 == tree1 + {x} && info2 == info1[x := f] && attr2 == attr1[x := a]
                    && kin2 == RootKin(kin1, x)
    ensures Grown(info0, info2, attr0, attr2, kin0, kin2, tree0, tree2) && tree0 <= tree1
    ensures forall n | n in tree2 && n !in tree0 :: IsRegion(info2, attr2, kin2, n, lo, f.base + Pow2(f.order), a)
  {
    hide Pow2;
    forall n | n in tree2 && n !in tree0 ensures IsRegion(info2, attr2, kin2, n, lo, f.base + Pow2(f.order), a) {
      if n in tree1 { assert IsRegion(info1, attr1, kin1, n, lo, f.base, a); }
    }
  }

  lemma RegionCovered(info1: Infos, info2: Infos, tree0: set<Node>, tree1: set<Node>, tree2: set<Node>, lo: nat,
                      hi: nat, f: Info, x: Node)
    requires tree0 <= tree1 && x !in tree1 && tree2 == tree1 + {x} && info2 == info1[x := f] && f.space == Ports(0)
    requires FreeRange(info1, tree1, Ports(0), f.base, hi) && CoveredRange(info1, tree0, tree1, Ports(0), lo, f.base)
    ensures FreeRange(info2, tree2, Ports(0), f.base + Pow2(f.order), hi)
    ensures CoveredRange(info2, tree0, tree2, Ports(0), lo, f.base + Pow2(f.order))
  {
    hide Pow2;
    forall v: nat | lo <= v < f.base + Pow2(f.order) ensures CoveredAt(info2, tree0, tree2, Ports(0), v) {
      if v < f.base {
        assert CoveredAt(info1, tree0, tree1, Ports(0), v);
        var n :| n in tree1 && n !in tree0 && n in info1 && info1[n].space == Ports(0)
          && InRange(info1[n].base, info1[n].order, v);
        assert n in tree2 && info2[n] == info1[n];
      } else {
        assert x in tree2 && InRange(info2[x].base, info2[x].order, v);
      }
    }
  }

  /** Unlinking a node from its list. */
  lemma ForestWithout(next: Links, prev: Links, kin: Kin, attr: Attrs, rings: Lists, home: Homes, tree: set<Node>,
                      n: Node, k: nat)
    requires Forest(next, prev, kin, attr, rings, home, tree) && n in tree && home[n] < |rings|
    requires var r := rings[home[n]];
             k < |r| && r[k] == n && (k + 1 < |r| ==> Depth(kin, r[k + 1]) <= Depth(kin, n))
    ensures n in next && n in prev && prev[n] in next && next[n] in prev
    ensures Forest(next[prev[n] := next[n]], prev[next[n] := prev[n]], kin, attr,
                   rings[home[n] := Without(rings[home[n]], k)], home, tree - {n})
  {
    hide Preorder, IsRing, Forest;
    var i := HomeOf(next, prev, kin, attr, rings, home, tree, n);
    var h, r := home[n], rings[home[n]];
    Alive(next, prev, r, k);
    RingNodes(kin, attr, r, tree, k);
    var next', prev' := next[prev[n] := next[n]], prev[next[n] := prev[n]];
    if k == 0 {
      SoleRoot(kin, attr, r);
    } else {
      Unlink(next, prev, r, k);
      RemovePreorder(kin, attr, r, k);
    }
    Neighbours(next, prev, r, k);
    assert prev[n] in r && next[n] in r;
    ForestFrame(next, prev, next', prev', kin, attr, rings, home, tree, h, Without(r, k));
    WithoutMembers(r, k);
    ForestMembers(next, prev, next', prev', kin, attr, rings, home, tree, n, k);
  }

  /** Changing one list, and pointers of its nodes only, keeps the others. */
  lemma ForestFrame(next: Links, prev: Links, next': Links, prev': Links, kin: Kin, attr: Attrs, rings: Lists,
                    home: Homes, tree: set<Node>, h: nat, r': seq<Node>)
    requires Forest(next, prev, kin, attr, rings, home, tree) && h < |rings| && RingOk(next', prev', kin, attr, r')
    requires next.Keys <= next'.Keys && forall x | x in next && x !in rings[h] :: next'[x] == next[x]
    requires prev.Keys <= prev'.Keys && forall x | x in prev && x !in rings[h] :: prev'[x] == prev[x]
    ensures AllRings(next', prev', kin, attr, rings[h := r'])
  {
    hide Preorder, IsRing, Forest;
    var rings' := rings[h := r'];
    forall g | 0 <= g < |rings'|
      ensures RingOk(next', prev', kin, attr, rings'[g])
    {
      if g != h {
        OtherRing(next, prev, kin, attr, rings, home, tree, g, h);
        var q := rings[g];
        if q != [] {
          RingKeys(next, prev, q);
          RingFrame(next, prev, next', prev', q);
        }
      }
    }
  }

  lemma OtherRing(next: Links, prev: Links, kin: Kin, attr: Attrs, rings: Lists, home: Homes, tree: set<Node>, g: nat,
                  h: nat)
    requires Forest(next, prev, kin, attr, rings, home, tree) && g < |rings| && h < |rings| && g != h
    ensures RingOk(next, prev, kin, attr, rings[g]) && forall x | x in rings[g] :: x !in rings[h]
  {
    forall x | x in rings[g] ensures x !in rings[h] { assert home[x] == g; }
  }

  ghost predicate AllRings(next: Links, prev: Links, kin: Kin, attr: Attrs, rings: Lists) {
    forall h {:trigger rings[h]} | 0 <= h < |rings| :: RingOk(next, prev, kin, attr, rings[h])
  }

  lemma ForestMembers(next: Links, prev: Links, next': Links, prev': Links, kin: Kin, attr: Attrs, rings: Lists,
                      home: Homes, tree: set<Node>, n: Node, k: nat)
    requires Forest(next, prev, kin, attr, rings, home, tree) && n in tree
    requires var r := rings[home[n]];
             k < |r| && r[k] == n && (forall x :: x in Without(r, k) <==> x in r && x != n)
    requires AllRings(next', prev', kin, attr, rings[home[n] := Without(rings[home[n]], k)])
    ensures Forest(next', prev', kin, attr, rings[home[n] := Without(rings[home[n]], k)], home, tree - {n})
  {
    hide RingOk, Without;
    var r, rings' := rings[home[n]], rings[home[n] := Without(rings[home[n]], k)];
    forall h, x | 0 <= h < |rings'| && x in rings'[h] ensures x in home && home[x] == h { assert x in rings[h]; }
  }

  /** Listed nodes are alive. */
  lemma Alive(next: Links, prev: Links, r: seq<Node>, k: nat)
    requires IsRing(next, prev, r) && k < |r|
    ensures var n := r[k];
            n in next && n in prev && next[n] in prev && prev[n] in next && next[prev[n]] == n
            && prev[next[n]] == n
  {
    var p := if k == 0 then |r| - 1 else k - 1;
    assert LinkedAt(next, prev, r, k) && LinkedAt(next, prev, r, p);
  }

  lemma RangesLess(info: Infos, tree: set<Node>, n: Node)
    requires Ranges(info, tree)
    ensures Ranges(info, tree - {n})
  {
  }

  /** A root with nothing deeper behind it is alone in its list. */
  lemma SoleRoot(kin: Kin, attr: Attrs, r: seq<Node>)
    requires Preorder(kin, attr, r) && (1 < |r| ==> Depth(kin, r[1]) <= Depth(kin, r[0]))
    ensures |r| == 1
  {
    if |r| > 1 { NotRoot(kin, attr, r, 1); }
  }

  lemma NotRoot(kin: Kin, attr: Attrs, r: seq<Node>, j: nat)
    requires Preorder(kin, attr, r) && 0 < j < |r|
    ensures Depth(kin, r[j]) > 0 && r[j] in kin.prnt
  {
    assert HasParent(kin, r, j);
  }

  /** A node without rights derives from `m`, or is one of the roots `bare`. */
  ghost predicate BareBelow(kin: Kin, attr: Attrs, tree: set<Node>, m: Node, bare: set<Node>) {
    && (forall n | n in tree :: n in attr && (attr[n] == {} ==> Derived(kin, m, n) || n in bare))
    && (forall n | n in bare :: n !in kin.prnt && n in attr && attr[n] == {})
  }

  lemma BareLess(kin: Kin, attr: Attrs, tree: set<Node>, tree': set<Node>, m: Node, bare: set<Node>)
    requires BareBelow(kin, attr, tree, m, bare) && tree' <= tree
    ensures BareBelow(kin, attr, tree', m, bare)
  {
  }

  /** The nodes that had no rights to begin with. */
  ghost function Bare(attr: Attrs, tree: set<Node>): set<Node> {
    set n | n in tree && n in attr && attr[n] == {}
  }

  lemma StripBare(next: Links, prev: Links, kin: Kin, attr: Attrs, attr': Attrs, rings: Lists, home: Homes,
                  tree: set<Node>, info: Infos, self: bool, m: Node, lo: nat, o: nat, mask: Rights)
    requires Forest(next, prev, kin, attr, rings, home, tree) && Rightful(attr, kin, tree) && m in tree && m in home
    requires Stripped(attr, attr', Picks(kin, info, tree, self, m, lo, o), mask)
    ensures BareBelow(kin, attr', tree, m, Bare(attr, tree))
  {
    hide Forest, Derived, Picked;
    forall n | n in tree ensures n in attr' && (attr'[n] == {} ==> Derived(kin, m, n) || n in Bare(attr, tree)) {
      if attr'[n] == {} && attr[n] != {} {
        PickedHome(next, prev, kin, attr, rings, home, tree, info, self, m, lo, o, n);
      }
    }
  }

  lemma BareRoots(kin: Kin, attr: Attrs, tree: set<Node>, m: Node, bare: set<Node>)
    requires BareBelow(kin, attr, tree, m, bare)
    ensures (forall n | n in bare :: n !in kin.prnt && n in attr && attr[n] == {}) && forall n | n in tree :: n in attr
  {
  }

  /** Of what the backward walk visits, only `m` can be a root. */
  lemma NotBare(kin: Kin, attr: Attrs, r: seq<Node>, m: Node, i: int, j: int)
    requires Preorder(kin, attr, r) && Tail(kin, attr, r, m, i, j)
    ensures r[j] != m ==> r[j] in kin.prnt
  {
    hide Preorder;
    if r[j] != m { NotRoot(kin, attr, r, j); }
  }

  /** The backward walk stands at position `j`; everything behind has rights. */
  ghost predicate Tail(kin: Kin, attr: Attrs, r: seq<Node>, m: Node, i: int, j: int) {
    && 0 <= i <= j < |r| && r[i] == m && Deeper(kin, r, i, j)
    && RightsFrom(attr, r, j + 1)
  }

  ghost predicate RightsFrom(attr: Attrs, r: seq<Node>, j: int) {
    forall k {:trigger r[k]} | 0 <= k < |r| && j <= k :: r[k] in attr && attr[r[k]] != {}
  }

  lemma TailStart(kin: Kin, attr: Attrs, r: seq<Node>, tree: set<Node>, m: Node, j: nat,
                  bare: set<Node>) returns (i: nat)
    requires Preorder(kin, attr, r) && SubtreeEnd(kin, r, m, j) && BareBelow(kin, attr, tree, m, bare)
    requires forall k | 0 <= k < |r| :: r[k] in tree
    ensures Tail(kin, attr, r, m, i, j) && i <= j < |r|
  {
    hide Preorder;
    i :| 0 <= i <= j < |r| && r[i] == m && Deeper(kin, r, i, j)
      && (j + 1 < |r| ==> Depth(kin, r[j + 1]) <= Depth(kin, m));
    forall k | j < k < |r| ensures r[k] in attr && attr[r[k]] != {} {
      SubtreeIsRun(kin, attr, r, i, k);
      NotRoot(kin, attr, r, k);
      if Derived(kin, m, r[k]) { DeeperAt(kin, r, i, k, j + 1); }
    }
  }

  /** What one step of the backward walk leaves. */
  lemma TailStep(kin: Kin, attr: Attrs, r: seq<Node>, m: Node, i: nat, j: nat, ok: bool)
    requires Preorder(kin, attr, r) && Tail(kin, attr, r, m, i, j) && r[j] in attr
    requires ok == (attr[r[j]] == {} && (j + 1 < |r| ==> Depth(kin, r[j + 1]) <= Depth(kin, r[j])))
    ensures RightsFrom(attr, if ok then Without(r, j) else r, j)
    ensures Depth(kin, r[j]) <= Depth(kin, m) <==> j == i
    ensures i < j ==> Tail(kin, attr, if ok then Without(r, j) else r, m, i, j - 1)
  {
    if i < j { DeeperAt(kin, r, i, j, j); }
    if ok {
      var r' := Without(r, j);
      forall k | j <= k < |r'| ensures r'[k] in attr && attr[r'[k]] != {} { assert r'[k] == r[k + 1]; }
      forall k | 0 <= k < j ensures r'[k] == r[k] { }
    } else if j + 1 < |r| && attr[r[j]] == {} {
      assert r[j + 1] in attr && attr[r[j + 1]] != {};
      NoChild(kin, attr, r, j);
    }
  }

  /** Once the walk is done, only the roots `bare` other than `m` are without rights. */
  lemma TailEnd(next: Links, prev: Links, kin: Kin, attr: Attrs, rings: Lists, home: Homes, tree: set<Node>, m: Node,
                i: nat, bare: set<Node>)
    requires Forest(next, prev, kin, attr, rings, home, tree) && BareBelow(kin, attr, tree, m, bare) && m in home
    requires home[m] < |rings|
    requires var r := rings[home[m]]; RightsFrom(attr, r, i) && (m !in r || (i < |r| && r[i] == m))
    ensures Rightful(attr, kin, tree) && forall n | n in tree && attr[n] == {} :: n in bare && n != m
  {
    hide Preorder, IsRing, Derived, Forest;
    forall n | n in tree ensures n in attr && (attr[n] == {} ==> n in bare && n != m) {
      if attr[n] == {} && (n !in bare || n == m) {
        DerivedSelf(kin, m);
        var k := HomeOf(next, prev, kin, attr, rings, home, tree, n);
        var q := AncestorAt(kin, attr, rings[home[n]], m, k);
        HomeIs(next, prev, kin, attr, rings, home, tree, home[n], q);
        RingNodes(kin, attr, rings[home[n]], tree, q);
      }
    }
  }

  lemma DerivedSelf(kin: Kin, m: Node)
    ensures Derived(kin, m, m)
  {
  }

  lemma HomeIs(next: Links, prev: Links, kin: Kin, attr: Attrs, rings: Lists, home: Homes, tree: set<Node>, h: nat,
               q: nat)
    requires Forest(next, prev, kin, attr, rings, home, tree) && h < |rings| && q < |rings[h]|
    ensures rings[h][q] in home && home[rings[h][q]] == h && rings[h][q] in rings[h] && rings[h][q] in tree
  {
    assert rings[h][q] in rings[h];
  }

  /** A node without rights has no child with rights. */
  lemma NoChild(kin: Kin, attr: Attrs, r: seq<Node>, k: nat)
    requires Preorder(kin, attr, r) && k + 1 < |r| && attr[r[k]] == {} && attr[r[k + 1]] != {}
    ensures Depth(kin, r[k + 1]) <= Depth(kin, r[k])
  {
    assert Climbs(kin, r, k + 1) && Narrows(kin, attr, r, k + 1);
    ChildOf(kin, attr, r, k, k + 1);
    assert Depth(kin, r[k + 1]) > Depth(kin, r[k]) ==> Deeper(kin, r, k, k + 1);
  }

  /** Dropping a node whose slots show nothing. */
  lemma SlotsDrop(slots: Slots, info: Infos, attr: Attrs, tree: set<Node>, n: Node)
    requires SlotsOk(slots, info, attr, tree) && n in attr && attr[n] == {}
    ensures SlotsOk(slots, info, attr, tree - {n})
  {
    forall m, s: Space, t: Table, i: nat | Holds(info, tree - {n}, m, s, t, i)
      ensures m in attr && SlotAt(slots, s, t, i) == CapOf(info[m], attr[m])
    {
      assert Holds(info, tree, m, s, t, i);
    }
    forall s: Space, t: Table, i: nat | SlotAt(slots, s, t, i) != Null
      ensures exists m :: Holds(info, tree - {n}, m, s, t, i)
    {
      var m :| Holds(info, tree, m, s, t, i);
      assert Holds(info, tree - {n}, m, s, t, i);
    }
  }

  /** Position `j` ends the subtree of `m`. */
  ghost predicate SubtreeEnd(kin: Kin, r: seq<Node>, m: Node, j: int) {
    exists i :: 0 <= i <= j < |r| && r[i] == m && Deeper(kin, r, i, j)
      && (j + 1 < |r| ==> Depth(kin, r[j + 1]) <= Depth(kin, m))
  }

  /** `done` holds the picked nodes at positions `i .. j`. */
  ghost predicate Sofar(r: seq<Node>, i: int, j: int, picks: set<Node>, done: set<Node>) {
    && (forall n | n in done :: n in r)
    && (forall k {:trigger r[k]} | 0 <= k < |r| :: r[k] in done <==> i <= k < j && r[k] in picks)
  }

  lemma SofarNone(r: seq<Node>, i: int, picks: set<Node>)
    ensures Sofar(r, i, i, picks, {})
  {
  }

  lemma SofarStep(r: seq<Node>, i: int, j: int, picks: set<Node>, done: set<Node>)
    requires Sofar(r, i, j, picks, done) && NoDup(r) && 0 <= i <= j < |r|
    ensures Sofar(r, i, j + 1, picks, if r[j] in picks then done + {r[j]} else done)
  {
  }

  lemma StrippedNone(attr: Attrs, mask: Rights)
    ensures Stripped(attr, attr, {}, mask)
  {
  }

  lemma StrippedAt(attr: Attrs, attr': Attrs, picks: set<Node>, mask: Rights, n: Node)
    requires Stripped(attr, attr', picks, mask) && n in attr
    ensures n in attr'
  {
  }

  lemma StrippedMore(attr: Attrs, was: Attrs, attr': Attrs, picks: set<Node>, mask: Rights, n: Node)
    requires Stripped(attr, was, picks, mask) && n in was && attr' == was[n := was[n] - mask]
    ensures Stripped(attr, attr', picks + {n}, mask)
  {
  }

  lemma Disjoint(a: Rights, b: Rights)
    requires a * b == {}
    ensures a - b == a
  {
    forall x | x in a ensures x in a - b { assert x !in a * b; }
  }

  lemma StrippedSame(attr: Attrs, attr': Attrs, picks: set<Node>, more: bool, mask: Rights, n: Node)
    requires Stripped(attr, attr', picks, mask) && n in attr' && (more ==> attr'[n] * mask == {})
    ensures Stripped(attr, attr', if more then picks + {n} else picks, mask)
  {
    if more {
      forall x | x in attr ensures attr'[x] == if x in picks + {n} then attr[x] - mask else attr[x] {
        if x == n { Disjoint(attr'[n], mask); }
      }
    }
  }

  lemma PicksAt(kin: Kin, info: Infos, tree: set<Node>, self: bool, m: Node, lo: nat, o: nat, n: Node)
    ensures n in Picks(kin, info, tree, self, m, lo, o) <==> n in tree && Picked(kin, info, self, m, lo, o, n)
  {
  }

  /** The list a node of the trees stands in. */
  lemma HomeOf(next: Links, prev: Links, kin: Kin, attr: Attrs, rings: Lists, home: Homes, tree: set<Node>,
               m: Node) returns (i: nat)
    requires Forest(next, prev, kin, attr, rings, home, tree) && m in tree
    ensures m in home && home[m] < |rings| && i < |rings[home[m]]| && rings[home[m]][i] == m
    ensures IsRing(next, prev, rings[home[m]]) && Preorder(kin, attr, rings[home[m]])
    ensures forall k | 0 <= k < |rings[home[m]]| :: rings[home[m]][k] in tree
  {
    var r := rings[home[m]];
    assert RingOk(next, prev, kin, attr, r);
    i :| 0 <= i < |r| && r[i] == m;
    forall k | 0 <= k < |r| ensures r[k] in tree { assert r[k] in r; }
  }

  lemma RingNodes(kin: Kin, attr: Attrs, r: seq<Node>, tree: set<Node>, k: nat)
    requires Preorder(kin, attr, r) && k < |r|
    ensures NoDup(r) && r[k] in kin.dpth && r[k] in attr && Depth(kin, r[0]) == 0 && Deeper(kin, r, k, k)
  {
    assert r[k] in r;
  }

  lemma WalkOn(kin: Kin, attr: Attrs, r: seq<Node>, i: nat, j: nat)
    requires Preorder(kin, attr, r) && i <= j < |r| && Deeper(kin, r, i, j)
    requires Depth(kin, r[After(j, |r|)]) > Depth(kin, r[i])
    ensures j + 1 < |r| && Deeper(kin, r, i, j + 1)
  {
  }

  /** Where the walk stops, the whole subtree has been seen. */
  lemma WalkEnds(next: Links, prev: Links, kin: Kin, attr: Attrs, rings: Lists, home: Homes, tree: set<Node>,
                 info: Infos, self: bool, m: Node, lo: nat, o: nat, i: nat, j: nat, done: set<Node>)
    requires Forest(next, prev, kin, attr, rings, home, tree) && m in home && home[m] < |rings|
    requires var r := rings[home[m]];
             && i <= j < |r| && r[i] == m && Preorder(kin, attr, r) && Deeper(kin, r, i, j)
             && (j + 1 < |r| ==> Depth(kin, r[j + 1]) <= Depth(kin, m))
             && Sofar(r, i, j + 1, Picks(kin, info, tree, self, m, lo, o), done)
    ensures done == Picks(kin, info, tree, self, m, lo, o)
    ensures SubtreeEnd(kin, rings[home[m]], m, j)
  {
    hide Picked, Preorder;
    var r := rings[home[m]];
    var picks := Picks(kin, info, tree, self, m, lo, o);
    forall n | n in picks ensures n in done {
      PickedHome(next, prev, kin, attr, rings, home, tree, info, self, m, lo, o, n);
      var k :| 0 <= k < |r| && r[k] == n;
      SubtreeIsRun(kin, attr, r, i, k);
      if k > j { DeeperAt(kin, r, i, k, j + 1); }
    }
    forall n | n in done ensures n in picks {
      var k :| 0 <= k < |r| && r[k] == n;
    }
  }

  /** How the demote flag of the walk follows from the node before. */
  lemma DemoteFlag(kin: Kin, attr: Attrs, r: seq<Node>, info: Infos, self: bool, lo: nat, o: nat, i: nat, j: nat)
    requires Preorder(kin, attr, r) && i <= j < |r| && Deeper(kin, r, i, j)
    ensures var hit := Depth(kin, r[j]) == Depth(kin, r[i]) + (if self then 0 else 1);
            var p := Picked(kin, info, self, r[i], lo, o, r[j]);
            && (self ==> (p <==> PhysMeets(info, lo, o, r[i])))
            && (!self && hit ==> (p <==> PhysMeets(info, lo, o, r[j])))
            && (!self && !hit && i < j ==> (p <==> Picked(kin, info, self, r[i], lo, o, r[j - 1])))
            && (!self && !hit && i == j ==> !p)
            && (self ==> (hit <==> i == j))
  {
    if self {
      SubtreeIsRun(kin, attr, r, i, j);
      if i < j { assert Depth(kin, r[i]) < Depth(kin, r[j]); }
    } else {
      HitCarried(kin, attr, r, (c: Node) => PhysMeets(info, lo, o, c), i, j);
    }
  }

  /** What a round strips is not the kernel's. */
  lemma PickedNotKernel(kin: Kin, attr: Attrs, r: seq<Node>, info: Infos, tree: set<Node>, self: bool, m: Node, lo: nat,
                        o: nat, k: nat)
    requires Preorder(kin, attr, r) && k < |r| && r[k] in tree && KernelRoots(info, kin, tree) && m in info
    requires Picked(kin, info, self, m, lo, o, r[k]) && (self ==> !Kernel(info[m].space))
    ensures r[k] in info && !Kernel(info[r[k]].space)
  {
    if r[k] != m {
      PickedDerived(kin, attr, r, info, self, m, lo, o, k);
    } else if !self {
      var hit := (c: Node) => PhysMeets(info, lo, o, c);
      var c :| HitChild(kin, hit, m, c) && Derived(kin, c, m);
      if c != m { assert m in kin.prnt; }
    }
  }

  /** Nodes of one space do not share an index. */
  lemma OneHolder(info: Infos, tree: set<Node>, n: Node, m: Node, s: Space, t: Table, i: nat)
    requires Ranges(info, tree) && Holds(info, tree, n, s, t, i) && Holds(info, tree, m, s, t, i)
    ensures n == m
  {
    if n != m { MeetsIsOverlap(info[n].base, info[n].order, info[m].base, info[m].order); }
  }

  lemma RangeAt(info: Infos, tree: set<Node>, n: Node)
    requires Ranges(info, tree) && n in tree
    ensures n in info && AlignedInfo(info[n])
  {
  }

  /** Rewriting the slots of one node keeps all slots right. */
  lemma SlotsStep(slots: Slots, slots': Slots, info: Infos, attr: Attrs, attr': Attrs, tree: set<Node>, n: Node)
    requires Ranges(info, tree) && SlotsOk(slots, info, attr, tree) && n in tree && n in attr'
    requires attr' == attr[n := attr'[n]]
    requires Shown(slots, slots', info[n], Pow2(info[n].order), CapOf(info[n], attr'[n]))
    ensures SlotsOk(slots', info, attr', tree)
  {
    forall m, s: Space, t: Table, i: nat | Holds(info, tree, m, s, t, i)
      ensures m in attr' && SlotAt(slots', s, t, i) == CapOf(info[m], attr'[m])
    {
      if Holds(info, tree, n, s, t, i) { OneHolder(info, tree, n, m, s, t, i); }
    }
    forall s: Space, t: Table, i: nat | SlotAt(slots', s, t, i) != Null
      ensures exists m :: Holds(info, tree, m, s, t, i)
    {
      if s == info[n].space && t in Tables(info[n])
        && InRange(info[n].base, info[n].order, i) { assert Holds(info, tree, n, s, t, i); }
    }
  }
}
