/** What the operations of the mapping database do to the capability table and the port bitmaps, cell by cell. */
module MappingSlots {
  import opened Radix
  import opened Bits
  import opened Derivation
  import opened MappingModel

  /** The table `t` of space `s` shows ranges delegated for the subspaces `sub`; objects have one table only. */
  predicate Lists(s: Space, t: Table, sub: set<Table>) {
    s.pd != 0 && if s.Objects? then t == Host else t in sub
  }

  /** Exactly the cells of the node's range hold `c` now. */
  ghost predicate Wrote(slots: Slots, slots': Slots, f: Info, c: Cell) {
    forall s: Space, t: Table, i: nat :: SlotAt(slots', s, t, i) ==
      (if s == f.space && Lists(s, t, f.sub) && f.base <= i < f.base + Pow2(f.order) then c else SlotAt(slots, s, t, i))
  }

  lemma WroteFrom(slots: Slots, slots': Slots, f: Info, a: Rights)
    requires Shown(slots, slots', f, Pow2(f.order), CapOf(f, a))
    ensures Wrote(slots, slots', f, if a == {} then Null else if f.space.Objects? then Cap(f.phys, a) else Open)
  {
    hide Pow2;
  }

  lemma OneCell(slots: Slots, slots': Slots, f: Info, c: Cell)
    requires Wrote(slots, slots', f, c) && f.order == 0 && f.space.Objects?
    ensures f.space.pd != 0 ==> SlotAt(slots', f.space, Host, f.base) == c
    ensures forall s: Space, t: Table, i: nat | f.space.pd == 0 || s != f.space || t != Host || i != f.base ::
              SlotAt(slots', s, t, i) == SlotAt(slots, s, t, i)
  {
    assert Pow2(0) == 1;
  }

  // -------------------------------------------------------------- delegation

  /** Index `i` of the receiver's window shows what node `m` has at the same offset of the sender's, under mask `a`. */
  ghost predicate ShowsPart(info: Infos, attr: Attrs, tree: set<Node>, snd: Space, m: Node, w: Window, i: nat,
                            c: Cell) {
    && m in tree && m in info && m in attr && info[m].space == snd
    && w.rbase <= i < w.rbase + Pow2(w.ord)
    && info[m].base <= i - w.rbase + w.sbase < info[m].base + Pow2(info[m].order)
    && attr[m] * w.a != {} && c == if snd.Objects? then Cap(info[m].phys, attr[m] * w.a) else Open
  }

  /**
   A cell that changed is one of the receiver's window, in a table asked for, and shows the sender's object or port at
   the same offset with exactly the rights that both have; and every node that is not refused shows so.
   */
  ghost predicate DelegatedCells(slots: Slots, slots': Slots, info: Infos, attr: Attrs, tree: set<Node>, snd: Space,
                                 w: Window) {
    && (forall s: Space, t: Table, i: nat | SlotAt(slots', s, t, i) != SlotAt(slots, s, t, i) ::
          s == w.rcv && Lists(s, t, w.sub) && exists m ::
            ShowsPart(info, attr, tree, snd, m, w, i, SlotAt(slots', s, t, i)))
    && (forall m, t: Table, i: nat | InPart(info, tree, snd, m, w, i) && Lists(w.rcv, t, w.sub)
                                     && !Refused(info, attr, tree, m, w) ::
          ShowsPart(info, attr, tree, snd, m, w, i, SlotAt(slots', w.rcv, t, i)))
  }

  ghost predicate InPart(info: Infos, tree: set<Node>, snd: Space, m: Node, w: Window, i: nat) {
    && m in tree && m in info && info[m].space == snd && w.rbase <= i < w.rbase + Pow2(w.ord)
    && info[m].base <= i - w.rbase + w.sbase < info[m].base + Pow2(info[m].order)
  }

  /** The new node for `m` covers exactly the part of `m` inside the window. */
  lemma PartIs(info: Infos, tree: set<Node>, snd: Space, m: Node, w: Window, i: nat)
    requires Ranges(info, tree) && m in tree && info[m].space == snd && AlignedWindow(w) && SameKind(snd, w.rcv)
    ensures InPart(info, tree, snd, m, w, i) ==> m in Hits(info, tree, snd, w.sbase, w.ord)
    ensures m in Hits(info, tree, snd, w.sbase, w.ord) ==>
              (InPart(info, tree, snd, m, w, i) <==> InRange(Image(info[m], w).base, Image(info[m], w).order, i))
  {
    hide Meets, AlignedBy, Pow2, Image;
    var f := info[m];
    assert AlignedInfo(f);
    MeetsByEnds(f.base, f.order, w.sbase, w.ord);
    if m in Hits(info, tree, snd, w.sbase, w.ord) {
      ImageFacts(f, w);
      MeetsIsOverlap(f.base, f.order, w.sbase, w.ord);
      if i - w.rbase + w.sbase >= 0 {
        var x: nat := i - w.rbase + w.sbase;
        assert InRange(Max(f.base, w.sbase), Min(f.order, w.ord), x) <==>
               InRange(f.base, f.order, x) && InRange(w.sbase, w.ord, x);
      }
    }
  }

  /** The cell of a new node. */
  lemma CopyCell(info: Infos, info': Infos, attr: Attrs, attr': Attrs, kin: Kin, kin': Kin, tree: set<Node>,
                 tree': set<Node>, snd: Space, w: Window, m: Node, n: Node, i: nat)
    requires Ranges(info, tree) && Grown(info, info', attr, attr', kin, kin', tree, tree') && AlignedWindow(w)
    requires SameKind(snd, w.rcv) && m in Hits(info, tree, snd, w.sbase, w.ord) && IsCopy(info', attr', kin', m, n, w)
    ensures n in info' && n in attr' && m in attr && attr'[n] == attr[m] * w.a
    ensures info'[n].space == w.rcv && info'[n].sub == w.sub
    ensures InPart(info, tree, snd, m, w, i) <==> InRange(info'[n].base, info'[n].order, i)
    ensures CapOf(info'[n], attr'[n]) ==
            if attr[m] * w.a == {} then Null else if snd.Objects? then Cap(info[m].phys, attr[m] * w.a) else Open
  {
    hide Meets, AlignedBy, Pow2, Image, InRange, SameKin;
    PartIs(info, tree, snd, m, w, i);
    assert AlignedInfo(info[m]);
    ImageFacts(info[m], w);
    if snd.Objects? { ObjectPart(info[m], w); }
  }

  /** The part of an object is the object. */
  lemma ObjectPart(f: Info, w: Window)
    requires AlignedInfo(f) && f.space.Objects? && AlignedWindow(w) && Meets(f.base, f.order, w.sbase, w.ord)
    requires SameKind(f.space, w.rcv)
    ensures Image(f, w).phys == f.phys
  {
    hide Meets, AlignedBy, Image;
    ImageFacts(f, w);
    assert Pow2(0) == 1;
  }

  lemma DelegateCells(slots: Slots, slots': Slots, info: Infos, info': Infos, attr: Attrs, attr': Attrs, kin: Kin,
                      kin': Kin, tree: set<Node>, tree': set<Node>, snd: Space, w: Window)
    requires Ranges(info, tree) && SlotsOk(slots, info, attr, tree) && SlotsOk(slots', info', attr', tree')
    requires Grown(info, info', attr, attr', kin, kin', tree, tree') && AlignedWindow(w) && SameKind(snd, w.rcv)
    requires !Kernel(w.rcv)
    requires forall n | n in tree' && n !in tree ::
               exists m :: m in Hits(info, tree, snd, w.sbase, w.ord) && IsCopy(info', attr', kin', m, n, w)
    requires forall m | m in Hits(info, tree, snd, w.sbase, w.ord) ::
               !Refused(info, attr, tree, m, w) <==>
               exists n :: n in tree' && n !in tree && IsCopy(info', attr', kin', m, n, w)
    ensures DelegatedCells(slots, slots', info, attr, tree, snd, w)
  {
    hide Ranges, Hits, IsCopy, Refused, CapOf, AlignedWindow, SlotAt, InRange, Pow2, SameKin;
    forall s: Space, t: Table, i: nat | SlotAt(slots', s, t, i) != SlotAt(slots, s, t, i)
      ensures s == w.rcv && Lists(s, t, w.sub) && exists m ::
              ShowsPart(info, attr, tree, snd, m, w, i, SlotAt(slots', s, t, i))
    {
      var n := ChangedHolder(slots, slots', info, info', attr, attr', kin, kin', tree, tree', s, t, i);
      var m :| m in Hits(info, tree, snd, w.sbase, w.ord) && IsCopy(info', attr', kin', m, n, w);
      ChangedShows(info, info', attr, attr', kin, kin', tree, tree', snd, w, m, n, s, t, i, SlotAt(slots', s, t, i));
    }
    forall m, t: Table, i: nat | InPart(info, tree, snd, m, w, i) && Lists(w.rcv, t, w.sub)
                                 && !Refused(info, attr, tree, m, w)
      ensures ShowsPart(info, attr, tree, snd, m, w, i, SlotAt(slots', w.rcv, t, i))
    {
      PartIs(info, tree, snd, m, w, i);
      var n :| n in tree' && n !in tree && IsCopy(info', attr', kin', m, n, w);
      CopyCell(info, info', attr, attr', kin, kin', tree, tree', snd, w, m, n, i);
      assert Holds(info', tree', n, w.rcv, t, i);
      RightsLeft(info, attr, tree, m, w);
    }
  }

  lemma RightsLeft(info: Infos, attr: Attrs, tree: set<Node>, m: Node, w: Window)
    requires m in info && m in attr && !Refused(info, attr, tree, m, w)
    ensures attr[m] * w.a != {}
  {
  }

  /** A cell that changed belongs to a new node. */
  lemma ChangedHolder(slots: Slots, slots': Slots, info: Infos, info': Infos, attr: Attrs, attr': Attrs, kin: Kin,
                      kin': Kin, tree: set<Node>, tree': set<Node>, s: Space, t: Table, i: nat) returns (n: Node)
    requires SlotsOk(slots, info, attr, tree) && SlotsOk(slots', info', attr', tree')
    requires Grown(info, info', attr, attr', kin, kin', tree, tree')
             && SlotAt(slots', s, t, i) != SlotAt(slots, s, t, i)
    ensures n in tree' && n !in tree && Holds(info', tree', n, s, t, i) && n in attr'
    ensures SlotAt(slots', s, t, i) == CapOf(info'[n], attr'[n]) != Null
  {
    hide CapOf, InRange, SameKin, SlotAt;
    forall m | m in tree ensures Holds(info, tree, m, s, t, i) <==> Holds(info', tree', m, s, t, i) { }
    if m :| Holds(info, tree, m, s, t, i) {
      SameHolder(slots, slots', info, info', attr, attr', kin, kin', tree, tree', m, s, t, i);
      assert false;
    }
    n :| Holds(info', tree', n, s, t, i);
  }

  /** The cell of an old node is as it was. */
  lemma SameHolder(slots: Slots, slots': Slots, info: Infos, info': Infos, attr: Attrs, attr': Attrs, kin: Kin,
                   kin': Kin, tree: set<Node>, tree': set<Node>, m: Node, s: Space, t: Table, i: nat)
    requires SlotsOk(slots, info, attr, tree) && SlotsOk(slots', info', attr', tree')
    requires Grown(info, info', attr, attr', kin, kin', tree, tree') && Holds(info, tree, m, s, t, i)
    ensures SlotAt(slots', s, t, i) == SlotAt(slots, s, t, i)
  {
    hide CapOf, InRange, SameKin, SlotAt;
    assert Holds(info', tree', m, s, t, i);
  }

  lemma ChangedShows(info: Infos, info': Infos, attr: Attrs, attr': Attrs, kin: Kin, kin': Kin, tree: set<Node>,
                     tree': set<Node>, snd: Space, w: Window, m: Node, n: Node, s: Space, t: Table, i: nat, c: Cell)
    requires Ranges(info, tree) && Grown(info, info', attr, attr', kin, kin', tree, tree') && AlignedWindow(w)
    requires SameKind(snd, w.rcv) && m in Hits(info, tree, snd, w.sbase, w.ord) && IsCopy(info', attr', kin', m, n, w)
    requires Holds(info', tree', n, s, t, i) && n in attr' && c == CapOf(info'[n], attr'[n]) != Null
    ensures s == w.rcv && Lists(s, t, w.sub) && ShowsPart(info, attr, tree, snd, m, w, i, c)
  {
    hide Ranges, Meets, IsCopy, AlignedWindow, CapOf, InRange, SameKin, Pow2;
    CopyCell(info, info', attr, attr', kin, kin', tree, tree', snd, w, m, n, i);
  }

  // -------------------------------------------------------------- revocation

  /** What is left of a cell without the rights `mask`; `a` are the rights of the node, which a bitmap does not show. */
  function Less(c: Cell, a: Rights, mask: Rights): Cell {
    match c
    case Null => Null
    case Cap(obj, rights) => if rights <= mask then Null else Cap(obj, rights - mask)
    case Open => if a <= mask then Null else Open
  }

  /** The cells of the picked nodes lose exactly `mask` and keep their object, all others are as they were. */
  ghost predicate RevokedCells(slots: Slots, slots': Slots, info: Infos, attr: Attrs, tree: set<Node>, picks: set<Node>,
                               mask: Rights) {
    && (forall n, s: Space, t: Table, i: nat | Holds(info, tree, n, s, t, i) :: n in attr && SlotAt(slots', s, t, i) ==
          if n in picks then Less(SlotAt(slots, s, t, i), attr[n], mask) else SlotAt(slots, s, t, i))
    && (forall s: Space, t: Table, i: nat | !exists n :: Holds(info, tree, n, s, t, i) ::
          SlotAt(slots', s, t, i) == SlotAt(slots, s, t, i) == Null)
  }

  lemma RevokeCells(slots: Slots, slots': Slots, info: Infos, attr: Attrs, attr': Attrs, tree: set<Node>,
                    tree': set<Node>, picks: set<Node>, mask: Rights)
    requires Ranges(info, tree) && SlotsOk(slots, info, attr, tree) && SlotsOk(slots', info, attr', tree')
    requires tree' <= tree && Stripped(attr, attr', picks, mask)
    requires forall n | n in tree && n !in tree' :: n in attr' && attr'[n] == {}
    ensures RevokedCells(slots, slots', info, attr, tree, picks, mask)
  {
    hide Ranges, SlotAt, InRange;
    forall n: Node, s: Space, t: Table, i: nat | Holds(info, tree, n, s, t, i)
      ensures n in attr && SlotAt(slots', s, t, i) ==
              if n in picks then Less(SlotAt(slots, s, t, i), attr[n], mask) else SlotAt(slots, s, t, i)
    {
      RevokeCell(slots', info, attr', tree, tree', n, s, t, i);
    }
    forall s: Space, t: Table, i: nat | !exists n :: Holds(info, tree, n, s, t, i)
      ensures SlotAt(slots', s, t, i) == SlotAt(slots, s, t, i) == Null
    {
      assert forall n :: Holds(info, tree', n, s, t, i) ==> Holds(info, tree, n, s, t, i);
    }
  }

  /** The cell of a node that stays, or goes without rights. */
  lemma RevokeCell(slots': Slots, info: Infos, attr': Attrs, tree: set<Node>, tree': set<Node>, n: Node, s: Space,
                   t: Table, i: nat)
    requires Ranges(info, tree) && SlotsOk(slots', info, attr', tree') && tree' <= tree && Holds(info, tree, n, s, t, i)
    requires n in attr' && (n !in tree' ==> attr'[n] == {})
    ensures SlotAt(slots', s, t, i) == CapOf(info[n], attr'[n])
  {
    hide Ranges, SlotAt, InRange;
    if n in tree' {
      assert Holds(info, tree', n, s, t, i);
    } else if SlotAt(slots', s, t, i) != Null {
      var m :| Holds(info, tree', m, s, t, i);
      assert Holds(info, tree, m, s, t, i);
      OneHolder(info, tree, n, m, s, t, i);
    }
  }
}
