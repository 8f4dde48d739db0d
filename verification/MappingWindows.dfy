/**
 Which windows the walks of `delegate` and `revoke` treat as the interval of indices they name: a walk compares
 blocks, and takes a base that is not aligned by its order for another block.
 */
module MappingWindows {
  import opened Radix
  import opened Bits
  import opened Rings
  import opened Derivation
  import opened MappingModel

  /** The walk stops at a node of this range. */
  predicate Found(f: Info, base: nat, ord: nat) {
    Meets(f.base, f.order, base, ord) && base < f.base + Pow2(f.order)
  }

  ghost predicate Overlaps(f: Info, base: nat, ord: nat) {
    exists x: nat :: InRange(f.base, f.order, x) && InRange(base, ord, x)
  }

  /** `g` is the part of `f` inside the window, from index `b` on, at the same offset of the receiver's window. */
  ghost predicate PartFrom(f: Info, g: Info, w: Window, b: nat) {
    && f.base <= b && w.sbase <= b && g.base == b - w.sbase + w.rbase && g.phys == b - f.base + f.phys
    && forall x: nat :: InRange(b, g.order, x) <==> InRange(f.base, f.order, x) && InRange(w.sbase, w.ord, x)
  }

  /** What delegation promises for a node: it is found if it overlaps the window, and its aligned part is copied. */
  ghost predicate CopiesPart(f: Info, w: Window) {
    && (Found(f, w.sbase, w.ord) <==> Overlaps(f, w.sbase, w.ord))
    && (Found(f, w.sbase, w.ord) ==> AlignedInfo(Image(f, w)) && exists b: nat :: PartFrom(f, Image(f, w), w, b))
  }

  lemma FoundIsOverlap(f: Info, base: nat, ord: nat)
    requires AlignedInfo(f) && AlignedBy(base, ord)
    ensures Found(f, base, ord) <==> Overlaps(f, base, ord)
  {
    hide Meets, Pow2, AlignedBy;
    MeetsByEnds(f.base, f.order, base, ord);
    MeetsIsOverlap(f.base, f.order, base, ord);
  }

  lemma CopiesAligned(f: Info, w: Window)
    requires AlignedInfo(f) && SameKind(f.space, w.rcv) && AlignedWindow(w)
    ensures CopiesPart(f, w)
  {
    hide Meets, Pow2, AlignedBy, Image;
    FoundIsOverlap(f, w.sbase, w.ord);
    if Found(f, w.sbase, w.ord) {
      ImageFacts(f, w);
      MeetsIsOverlap(f.base, f.order, w.sbase, w.ord);
      assert PartFrom(f, Image(f, w), w, Max(f.base, w.sbase));
    }
  }

  /** The index behind the block of an unaligned base is in the window, but not found. */
  lemma BehindBlock(s: Space, base: nat, ord: nat)
    requires !AlignedBy(base, ord)
    ensures var f := Info(s, 0, Down(base, ord) + Pow2(ord), 0, {});
            AlignedInfo(f) && !Found(f, base, ord) && InRange(f.base, 0, f.base) && InRange(base, ord, f.base)
  {
    hide Meets, Pow2, AlignedBy, Down;
    var b := Down(base, ord) + Pow2(ord);
    SingleAligned(Info(s, 0, b, 0, {}));
    assert Down(base, ord) != base;
    MeetsDown(b, 0, base, ord);
    SingleBlock(b);
    AnyAligned(b);
    MeetsByEnds(b, 0, Down(base, ord), ord);
  }

  lemma SingleBlock(b: nat)
    ensures InRange(b, 0, b) && Pow2(0) == 1
  {
  }

  /** A range that holds the whole window is copied to the receiver's base, with the order of the window. */
  lemma WholeWindow(w: Window)
    requires AlignedBy(w.sbase, w.ord) && w.rcv.Ports? && CopiesPart(Cover(w), w)
    ensures AlignedBy(w.rbase, w.ord)
  {
    hide Meets, Pow2, Image;
    var f := Cover(w);
    CoverFacts(w);
    FoundIsOverlap(f, w.sbase, w.ord);
    assert InRange(f.base, f.order, w.sbase) && InRange(w.sbase, w.ord, w.sbase);
    MeetsByEnds(f.base, f.order, w.sbase, w.ord);
    ImageIs(f, w);
  }

  lemma ImageIs(f: Info, w: Window)
    requires Common(f.base, f.order, w.sbase, w.ord) == (w.sbase, w.ord)
    ensures Image(f, w).base == w.rbase && Image(f, w).order == w.ord
  {
  }

  /** A block from 0 on that holds the window. */
  function Cover(w: Window): Info {
    Info(w.rcv, 0, 0, w.sbase + w.ord, {})
  }

  lemma CoverFacts(w: Window)
    ensures AlignedInfo(Cover(w)) || w.rcv.Objects?
    ensures w.sbase < Pow2(Cover(w).order) && w.ord <= Cover(w).order && 1 <= Pow2(w.ord)
  {
    hide Pow2;
    PowAbove(w.sbase + w.ord);
    DivModUnique(0, 0, Pow2(w.sbase + w.ord));
    PowAbove(w.ord);
  }

  lemma {:induction false} PowAbove(k: nat)
    ensures k < Pow2(k)
  {
    if k > 0 { PowAbove(k - 1); }
  }

  /**
   Delegation copies of every node exactly the part inside the window if and only if the sender's base is aligned by
   the order, and for ports the receiver's too.
   */
  lemma DelegateWindowIff(w: Window)
    ensures (forall f: Info | AlignedInfo(f) && SameKind(f.space, w.rcv) :: CopiesPart(f, w)) <==> AlignedWindow(w)
  {
    hide Meets, Pow2, AlignedBy, Image, CopiesPart, AlignedInfo, Down;
    if AlignedWindow(w) {
      forall f: Info | AlignedInfo(f) && SameKind(f.space, w.rcv) ensures CopiesPart(f, w) { CopiesAligned(f, w); }
    } else if !AlignedBy(w.sbase, w.ord) {
      BehindBlock(w.rcv, w.sbase, w.ord);
      NotCopied(Info(w.rcv, 0, Down(w.sbase, w.ord) + Pow2(w.ord), 0, {}), w);
    } else {
      CoverFacts(w);
      if CopiesPart(Cover(w), w) { WholeWindow(w); }
    }
  }

  lemma NotCopied(f: Info, w: Window)
    requires InRange(f.base, f.order, f.base) && InRange(w.sbase, w.ord, f.base) && !Found(f, w.sbase, w.ord)
    ensures !CopiesPart(f, w)
  {
    hide Meets, Pow2;
  }

  // ----------------------------------------------------------------- revoke

  /** What revocation promises for node `n`: see `SelectedMeaning`. */
  ghost predicate SelectsRight(kin: Kin, info: Infos, tree: set<Node>, s: Space, base: nat, ord: nat, self: bool,
                               n: Node) {
    n in Selected(kin, info, tree, Hits(info, tree, s, base, ord), base, ord, self) <==>
    if self then exists m, x :: m in tree && Shares(info, m, s, base, ord, x) && Derived(kin, m, n)
    else exists m, c, x :: m in tree && Shares(info, m, s, base, ord, x) && c in kin.prnt && kin.prnt[c] == m
                        && Backs(info, m, c, x) && Derived(kin, c, n)
  }

  /** A valid database in which revocation keeps its promise for every node. */
  ghost predicate RevokesRight(base: nat, ord: nat, self: bool) {
    forall next: Links, prev: Links, kin: Kin, attr: Attrs, rings: Lists, home: Homes, tree: set<Node>, info: Infos,
           s: Space, n: Node | Forest(next, prev, kin, attr, rings, home, tree) && Ranges(info, tree) && n in tree ::
      SelectsRight(kin, info, tree, s, base, ord, self, n)
  }

  /** Revocation selects by the indices of the window, in every database, if and only if the window is aligned. */
  lemma RevokeWindowIff(base: nat, ord: nat, self: bool)
    ensures RevokesRight(base, ord, self) <==> AlignedBy(base, ord)
  {
    hide Forest, Ranges, SelectsRight, AlignedBy;
    if AlignedBy(base, ord) {
      forall next: Links, prev: Links, kin: Kin, attr: Attrs, rings: Lists, home: Homes, tree: set<Node>, info: Infos,
             s: Space, n: Node | Forest(next, prev, kin, attr, rings, home, tree) && Ranges(info, tree) && n in tree
        ensures SelectsRight(kin, info, tree, s, base, ord, self, n)
      {
        SelectsAligned(next, prev, kin, attr, rings, home, tree, info, s, base, ord, self, n);
      }
    } else {
      MissedPair(base, ord, self);
    }
  }

  lemma SelectsAligned(next: Links, prev: Links, kin: Kin, attr: Attrs, rings: Lists, home: Homes, tree: set<Node>,
                       info: Infos, s: Space, base: nat, ord: nat, self: bool, n: Node)
    requires Forest(next, prev, kin, attr, rings, home, tree) && Ranges(info, tree) && n in tree && AlignedBy(base, ord)
    ensures SelectsRight(kin, info, tree, s, base, ord, self, n)
  {
    hide Forest, Ranges, AlignedBy, Selected, Hits, Shares, Backs, Derived;
    SelectedMeaning(kin, info, attr, tree, next, prev, rings, home, s, base, ord, self, n);
  }

  /** A root at one index and its copy in another space. */
  function Pair(b: nat): Infos {
    map[0 := Info(Ports(1), 0, b, 0, {}), 1 := Info(Ports(2), 0, 0, 0, {})]
  }

  const PAIR_KIN := Kin(map[0 := 0, 1 := 1], map[1 := 0])

  /** The lists of the pair. */
  lemma PairForest()
    ensures Forest(map[0 := 1, 1 := 0], map[0 := 1, 1 := 0], PAIR_KIN, map[0 := {0}, 1 := {0}], [[0, 1]],
                   map[0 := 0, 1 := 0], {0, 1})
  {
    var links: Links, attr: Attrs, r: seq<Node> := map[0 := 1, 1 := 0], map[0 := {0}, 1 := {0}], [0, 1];
    assert LinkedAt(links, links, r, 0) && LinkedAt(links, links, r, 1);
    assert ParentAt(PAIR_KIN, r, 0, 1);
    assert HasParent(PAIR_KIN, r, 1);
    assert RingOk(links, links, PAIR_KIN, attr, r);
  }

  lemma PairRanges(b: nat)
    ensures Ranges(Pair(b), {0, 1})
  {
    hide Meets, AlignedInfo;
    SingleAligned(Pair(b)[0]);
    SingleAligned(Pair(b)[1]);
  }

  /** Revoking an unaligned window misses the root behind its block, and so the copy. */
  lemma MissedPair(base: nat, ord: nat, self: bool)
    requires !AlignedBy(base, ord)
    ensures !RevokesRight(base, ord, self)
  {
    hide Forest, Ranges, SelectsRight, Down, Pow2, AlignedBy;
    var b := Down(base, ord) + Pow2(ord);
    PairForest();
    PairRanges(b);
    BehindBlock(Ports(1), base, ord);
    PairMissed(b, base, ord, self);
    assert !SelectsRight(PAIR_KIN, Pair(b), {0, 1}, Ports(1), base, ord, self, 1);
  }

  lemma PairMissed(b: nat, base: nat, ord: nat, self: bool)
    requires !Found(Pair(b)[0], base, ord) && InRange(b, 0, b) && InRange(base, ord, b)
    ensures !SelectsRight(PAIR_KIN, Pair(b), {0, 1}, Ports(1), base, ord, self, 1)
  {
    hide Pow2, Meets;
    var info := Pair(b);
    assert Hits(info, {0, 1}, Ports(1), base, ord) == {};
    assert Shares(info, 0, Ports(1), base, ord, b);
    SingleBlock(0);
    assert Backs(info, 0, 1, b);
    assert Derived(PAIR_KIN, 0, 0) && Derived(PAIR_KIN, 0, 1) && Derived(PAIR_KIN, 1, 1);
  }
}
