/**
 Concurrent callers of `replace_readonly_page` on one page-table slot: `Space_obj::walk`, which wants a
 writable page of its own there, and `Space_obj::page_fault`, which wants the shared read-only zero page.
 */
module ReadonlyPages {

  /** The slot: not present, or a frame that may be writable. */
  datatype Pte = Empty | Map(frame: nat, write: bool)

  predicate Writable(e: Pte) {
    e.Map? && e.write
  }

  function FrameOf(e: Pte): nat {
    if e.Map? then e.frame else 0
  }

  /** Where a caller stands. `entry` is what it proposes, `seen` what it last read. */
  datatype Pc =
    | Start                           // walk: about to look the slot up
    | Need                            // walk: about to allocate a page
    | Ask(entry: Pte)                 // about to read the slot
    | Saw(entry: Pte, seen: Pte)      // about to compare and swap, or to return
    | Back(entry: Pte, got: nat)      // walk: about to free the page if it was not installed
    | Done(write: bool, got: nat)

  /** The slot, the allocator's free pages and all callers. */
  datatype Sys = Sys(slot: Pte, pool: multiset<nat>, callers: seq<Pc>)

  const ZERO: nat := 0

  /** What one atomic action of caller `c` does; `page` is what the allocator hands out, if asked. */
  function Next(s: Sys, c: nat, page: nat): Sys
    requires c < |s.callers|
  {
    match s.callers[c]
    case Start =>
      if s.slot.Map? && s.slot.frame != ZERO then s.(callers := s.callers[c := Done(true, s.slot.frame)])
      else s.(callers := s.callers[c := Need])
    case Need =>
      if page in s.pool then s.(pool := s.pool - multiset{page}, callers := s.callers[c := Ask(Map(page, true))])
      else s
    case Ask(entry) => s.(callers := s.callers[c := Saw(entry, s.slot)])
    case Saw(entry, seen) =>
      if seen != entry && !Writable(seen) then
        if s.slot == seen then s.(slot := entry, callers := s.callers[c := Back(entry, FrameOf(entry))])
        else s.(callers := s.callers[c := Ask(entry)])
      else s.(callers := s.callers[c := Back(entry, FrameOf(seen))])
    case Back(entry, got) =>
      s.(pool := if Writable(entry) && got != FrameOf(entry) then s.pool + multiset{FrameOf(entry)} else s.pool,
         callers := s.callers[c := Done(Writable(entry), got)])
    case Done(_, _) => s
  }

  /** Callers start as walkers or with the zero page in hand; the allocator's pages are distinct and not in use. */
  ghost predicate Init(s: Sys) {
    && (forall c | 0 <= c < |s.callers| :: s.callers[c] == Start || s.callers[c] == Ask(Map(ZERO, false)))
    && (s.slot.Map? && !s.slot.write ==> s.slot.frame == ZERO)
    && NoTwice(s.pool + Installed(s.slot)) && ZERO !in s.pool && (Writable(s.slot) ==> s.slot.frame != ZERO)
  }

  ghost predicate NoTwice(m: multiset<nat>) {
    forall x :: m[x] <= 1
  }

  /** The page that the slot keeps. */
  ghost function Installed(e: Pte): multiset<nat> {
    if Writable(e) then multiset{e.frame} else multiset{}
  }

  /** The page that a caller has allocated and not yet given away. */
  ghost function HeldBy(p: Pc): multiset<nat> {
    match p
    case Ask(e) => Installed(e)
    case Saw(e, _) => Installed(e)
    case Back(e, got) => if Writable(e) && got != e.frame then multiset{e.frame} else multiset{}
    case _ => multiset{}
  }

  ghost function Held(cs: seq<Pc>): multiset<nat> {
    if cs == [] then multiset{} else HeldBy(cs[0]) + Held(cs[1..])
  }

  ghost predicate CallerOk(slot: Pte, p: Pc) {
    match p
    case Ask(e) => e.Map? && (!e.write ==> e.frame == ZERO)
    case Saw(e, seen) =>
      e.Map? && (!e.write ==> e.frame == ZERO) && (Writable(seen) ==> slot == seen) && (seen.Map? ==> slot.Map?)
    case Back(e, got) => slot.Map? && (Writable(e) ==> Writable(slot) && slot.frame == got)
    case Done(write, got) => slot.Map? && (write ==> Writable(slot) && slot.frame == got)
    case _ => true
  }

  ghost predicate Inv(s: Sys, total: multiset<nat>) {
    && (s.slot.Map? && !s.slot.write ==> s.slot.frame == ZERO)
    && s.pool + Held(s.callers) + Installed(s.slot) == total && NoTwice(total) && ZERO !in total
    && (forall c | 0 <= c < |s.callers| :: CallerOk(s.slot, s.callers[c]))
  }

  lemma {:induction false} HeldAt(cs: seq<Pc>, c: nat)
    requires c < |cs|
    ensures HeldBy(cs[c]) <= Held(cs)
  {
    if c > 0 {
      HeldAt(cs[1..], c - 1);
      assert cs[1..][c - 1] == cs[c];
    }
  }

  lemma {:induction false} HeldUpdate(cs: seq<Pc>, c: nat, p: Pc)
    requires c < |cs|
    ensures Held(cs[c := p]) + HeldBy(cs[c]) == Held(cs) + HeldBy(p)
  {
    hide HeldBy;
    var cs' := cs[c := p];
    if c > 0 {
      HeldUpdate(cs[1..], c - 1, p);
      assert cs'[1..] == cs[1..][c - 1 := p] && cs[1..][c - 1] == cs[c];
      Regroup(HeldBy(cs[0]), Held(cs'[1..]), HeldBy(cs[c]));
      Regroup(HeldBy(cs[0]), Held(cs[1..]), HeldBy(p));
    } else {
      assert cs'[1..] == cs[1..];
      Regroup(HeldBy(p), Held(cs[1..]), HeldBy(cs[0]));
      Regroup(HeldBy(cs[0]), Held(cs[1..]), HeldBy(p));
    }
  }

  lemma Regroup(a: multiset<nat>, b: multiset<nat>, c: multiset<nat>)
    ensures (a + b) + c == a + (b + c) && (a + b) + c == (c + b) + a
  {
  }

  lemma {:induction false} InitHeld(cs: seq<Pc>)
    requires forall c | 0 <= c < |cs| :: cs[c] == Start || cs[c] == Ask(Map(ZERO, false))
    ensures Held(cs) == multiset{}
  {
    if cs != [] { InitHeld(cs[1..]); }
  }

  /** A writable entry is never replaced. */
  lemma StepKeepsWritable(s: Sys, c: nat, page: nat, total: multiset<nat>)
    requires Inv(s, total) && c < |s.callers|
    ensures Writable(s.slot) ==> Next(s, c, page).slot == s.slot
  {
  }

  /** What one action moves between the allocator, the caller and the slot. */
  lemma StepLocal(s: Sys, c: nat, page: nat)
    requires c < |s.callers| && CallerOk(s.slot, s.callers[c])
    requires s.callers[c].Saw? && Writable(s.callers[c].entry) ==> s.slot != s.callers[c].entry
    ensures var s' := Next(s, c, page);
            s'.pool + (HeldBy(s'.callers[c]) + Installed(s'.slot)) ==
              s.pool + (HeldBy(s.callers[c]) + Installed(s.slot))
  {
    hide HeldBy, Installed, Next;
    if s.callers[c].Saw? { SawLocal(s, c, page); } else { PoolLocal(s, c, page); }
  }

  lemma PoolLocal(s: Sys, c: nat, page: nat)
    requires c < |s.callers| && !s.callers[c].Saw? && CallerOk(s.slot, s.callers[c])
    ensures var s' := Next(s, c, page);
            s'.pool + (HeldBy(s'.callers[c]) + Installed(s'.slot)) ==
              s.pool + (HeldBy(s.callers[c]) + Installed(s.slot))
  {
    hide Installed;
    var s', p, i := Next(s, c, page), s.pool, Installed(s.slot);
    var was, now := HeldBy(s.callers[c]), HeldBy(s'.callers[c]);
    if s.callers[c].Need? && page in p {
      PageIs(page);
      assert s'.pool == p - multiset{page} && was == multiset{} && now == multiset{page};
      TakeOut(p, page, i);
    } else if s.callers[c].Back? && Writable(s.callers[c].entry) && s.callers[c].got != s.callers[c].entry.frame {
      assert s'.pool == p + multiset{s.callers[c].entry.frame} && was == multiset{s.callers[c].entry.frame}
        && now == multiset{};
      PutBack(p, s.callers[c].entry.frame, i);
    } else {
      assert s'.pool == p && was == now;
    }
  }

  lemma PageIs(page: nat)
    ensures Installed(Map(page, true)) == multiset{page}
  {
  }

  lemma TakeOut(p: multiset<nat>, x: nat, i: multiset<nat>)
    requires x in p
    ensures p - multiset{x} + (multiset{x} + i) == p + (multiset{} + i)
  {
  }

  lemma PutBack(p: multiset<nat>, x: nat, i: multiset<nat>)
    ensures p + multiset{x} + (multiset{} + i) == p + (multiset{x} + i)
  {
  }

  lemma SawLocal(s: Sys, c: nat, page: nat)
    requires c < |s.callers| && CallerOk(s.slot, s.callers[c]) && s.callers[c].Saw?
    requires Writable(s.callers[c].entry) ==> s.slot != s.callers[c].entry
    ensures var s' := Next(s, c, page);
            s'.pool == s.pool && HeldBy(s'.callers[c]) + Installed(s'.slot) == HeldBy(s.callers[c]) + Installed(s.slot)
  {
    var e, s' := s.callers[c].entry, Next(s, c, page);
    if s'.slot != s.slot {
      assert HeldBy(s'.callers[c]) == multiset{} && Installed(s.slot) == multiset{}
        && Installed(s'.slot) == Installed(e);
    } else {
      assert HeldBy(s'.callers[c]) == HeldBy(s.callers[c]);
    }
  }

  lemma Cancel(p: multiset<nat>, i: multiset<nat>, h: multiset<nat>, b: multiset<nat>, p': multiset<nat>,
               i': multiset<nat>, h': multiset<nat>, b': multiset<nat>)
    requires p' + (b' + i') == p + (b + i) && h' + b == h + b'
    ensures p' + h' + i' == p + h + i
  {
    forall x: nat ensures (p' + h' + i')[x] == (p + h + i)[x] {
      assert (p' + (b' + i'))[x] == (p + (b + i))[x] && (h' + b)[x] == (h + b')[x];
    }
  }

  lemma StepInv(s: Sys, c: nat, page: nat, total: multiset<nat>)
    requires Inv(s, total) && c < |s.callers|
    ensures Inv(Next(s, c, page), total)
  {
    hide Held, NoTwice, HeldBy, Installed;
    var s' := Next(s, c, page);
    StepKeepsWritable(s, c, page, total);
    HeldUpdate(s.callers, c, s'.callers[c]);
    assert CallerOk(s.slot, s.callers[c]);
    if s.callers[c].Saw? { NotMine(s, c, total); }
    StepLocal(s, c, page);
    assert s'.callers == s.callers[c := s'.callers[c]];
    Cancel(s.pool, Installed(s.slot), Held(s.callers), HeldBy(s.callers[c]), s'.pool, Installed(s'.slot),
           Held(s'.callers), HeldBy(s'.callers[c]));
    forall k | 0 <= k < |s'.callers| ensures CallerOk(s'.slot, s'.callers[k]) {
      assert CallerOk(s.slot, s.callers[k]) && CallerOk(s.slot, s.callers[c]);
    }
  }

  /** The page a walker still holds is not the one in the slot. */
  lemma NotMine(s: Sys, c: nat, total: multiset<nat>)
    requires Inv(s, total) && c < |s.callers| && s.callers[c].Saw?
    ensures Writable(s.callers[c].entry) ==> s.slot != s.callers[c].entry
  {
    HeldAt(s.callers, c);
    if Writable(s.callers[c].entry) && s.slot == s.callers[c].entry {
      Twice(s.pool, Held(s.callers), Installed(s.slot), s.slot.frame);
    }
  }

  lemma Twice(a: multiset<nat>, b: multiset<nat>, c: multiset<nat>, x: nat)
    requires multiset{x} <= b && multiset{x} <= c
    ensures (a + b + c)[x] >= 2
  {
  }

  // --------------------------------------------------------------------- runs

  datatype Move = Move(caller: nat, page: nat)

  ghost predicate IsRun(states: seq<Sys>, moves: seq<Move>) {
    && |states| == |moves| + 1 && Init(states[0])
    && forall i {:trigger moves[i]} | 0 <= i < |moves| ::
         moves[i].caller < |states[i].callers| && states[i + 1] == Next(states[i], moves[i].caller, moves[i].page)
  }

  ghost function Total(s: Sys): multiset<nat> {
    s.pool + Installed(s.slot)
  }

  lemma {:induction false} RunInv(states: seq<Sys>, moves: seq<Move>, i: nat)
    requires IsRun(states, moves) && i < |states|
    ensures Inv(states[i], Total(states[0]))
  {
    if i == 0 {
      InitHeld(states[0].callers);
    } else {
      RunInv(states, moves, i - 1);
      StepInv(states[i - 1], moves[i - 1].caller, moves[i - 1].page, Total(states[0]));
    }
  }

  /** Over a whole run, a writable entry stays in its slot. */
  lemma {:induction false} WritableStays(states: seq<Sys>, moves: seq<Move>, i: nat, j: nat)
    requires IsRun(states, moves) && i <= j < |states| && Writable(states[i].slot)
    ensures states[j].slot == states[i].slot
  {
    if i < j {
      WritableStays(states, moves, i, j - 1);
      RunInv(states, moves, j - 1);
      StepKeepsWritable(states[j - 1], moves[j - 1].caller, moves[j - 1].page, Total(states[0]));
    }
  }

  /** Whoever has returned left a page in the slot: the access that faulted can go on. */
  lemma PagePresent(states: seq<Sys>, moves: seq<Move>, i: nat, j: nat, c: nat)
    requires IsRun(states, moves) && i <= j < |states| && c < |states[i].callers| && states[i].callers[c].Done?
    ensures states[j].slot.Map?
  {
    RunInv(states, moves, i);
    assert CallerOk(states[i].slot, states[i].callers[c]);
    StaysPresent(states, moves, i, j);
  }

  lemma {:induction false} StaysPresent(states: seq<Sys>, moves: seq<Move>, i: nat, j: nat)
    requires IsRun(states, moves) && i <= j < |states| && states[i].slot.Map?
    ensures states[j].slot.Map?
  {
    if i < j {
      StaysPresent(states, moves, i, j - 1);
      RunInv(states, moves, j - 1);
      assert CallerOk(states[j - 1].slot, states[j - 1].callers[moves[j - 1].caller]);
    }
  }

  /** All callers that asked for a writable page return the one frame that got installed, whenever they return. */
  lemma OneFrame(states: seq<Sys>, moves: seq<Move>, i: nat, j: nat, a: nat, b: nat)
    requires IsRun(states, moves) && i <= j < |states| && a < |states[i].callers| && b < |states[j].callers|
    requires states[i].callers[a].Done? && states[i].callers[a].write && states[j].callers[b].Done?
    requires states[j].callers[b].write
    ensures states[i].callers[a].got == states[j].callers[b].got
    ensures states[j].slot == Map(states[j].callers[b].got, true)
  {
    RunInv(states, moves, i);
    RunInv(states, moves, j);
    assert CallerOk(states[i].slot, states[i].callers[a]) && CallerOk(states[j].slot, states[j].callers[b]);
    WritableStays(states, moves, i, j);
  }

  /**
   No page is lost or freed twice: at any time each page of the allocator is free, in the hands of one caller, or
   installed; once no caller holds one, all pages but the installed one are free again, each once.
   */
  lemma PagesConserved(states: seq<Sys>, moves: seq<Move>, i: nat)
    requires IsRun(states, moves) && i < |states|
    ensures states[i].pool + Held(states[i].callers) + Installed(states[i].slot) ==
            states[0].pool + Installed(states[0].slot)
    ensures NoTwice(states[0].pool + Installed(states[0].slot))
    ensures (forall c | 0 <= c < |states[i].callers| :: states[i].callers[c].Done?) ==>
              states[i].pool + Installed(states[i].slot) == states[0].pool + Installed(states[0].slot)
  {
    RunInv(states, moves, i);
    if forall c | 0 <= c < |states[i].callers| :: states[i].callers[c].Done? { DoneHeld(states[i].callers); }
  }

  lemma {:induction false} DoneHeld(cs: seq<Pc>)
    requires forall c | 0 <= c < |cs| :: cs[c].Done?
    ensures Held(cs) == multiset{}
  {
    if cs != [] { DoneHeld(cs[1..]); }
  }

  // ----------------------------------------------------------------- progress

  /** Caller `c` takes `n` steps alone. */
  function Alone(s: Sys, c: nat, page: nat, n: nat): (t: Sys)
    requires c < |s.callers|
    ensures |t.callers| == |s.callers|
    decreases n
  {
    if n == 0 then s else Alone(Next(s, c, page), c, page, n - 1)
  }

  /** The steps a caller has to go. */
  function Rank(s: Sys, p: Pc): nat {
    match p
    case Start => 5
    case Need => 4
    case Ask(_) => 3
    case Saw(_, seen) => if s.slot == seen then 2 else 4
    case Back(_, _) => 1
    case Done(_, _) => 0
  }

  /** Wherever the others stand, a caller that goes on alone returns, if there is a page for it. */
  lemma {:induction false} CallerEnds(s: Sys, c: nat, page: nat, n: nat)
    requires c < |s.callers| && (s.callers[c].Start? || s.callers[c].Need? ==> page in s.pool)
    requires Rank(s, s.callers[c]) <= n
    ensures Alone(s, c, page, n).callers[c].Done?
    decreases n
  {
    if n > 0 {
      var s' := Next(s, c, page);
      assert Rank(s', s'.callers[c]) < Rank(s, s.callers[c]) || s.callers[c].Done?;
      CallerEnds(s', c, page, n - 1);
    }
  }
}
