/** Concurrent updates come to an end: whatever others did before, an update that has pages at hand gets done. */
module ConcurrentProgress {
  import opened Options
  import opened Radix
  import opened PageTableModel
  import opened ConcurrentTables

  /** An update fails only where it needs a table and the allocator has none. */
  lemma FailsOnly(c: Setup, states: seq<State>, moves: seq<Move>, start: Places, i: nat, u: nat)
    requires Run(c, states, moves) && Init(c, states[0], start) && i < |moves|
    requires u < |states[i].updates| && u < |states[i + 1].updates|
    requires states[i].updates[u] != Failed && states[i + 1].updates[u] == Failed
    ensures moves[i] == Update(u, None) && (states[i].updates[u].Split? || states[i].updates[u].Link?)
  {
    hide Inv, Init, MemInv, Hang, Store, Read;
    var places, all := RunInv(c, states, moves, start, i);
    InvAt(c, states[i], places, all, u);
    assert moves[i] in moves;
    var pc := states[i].updates[u];
    if pc.Link? { LinkFrame(c, states[i].mem, all, c.asked[u], pc.frames, pc.seen); }
  }

  lemma InvAt(c: Setup, s: State, places: Places, all: Places, u: nat)
    requires Inv(c, s, places, all) && u < |s.updates|
    ensures c.f.Valid() && |s.updates| == |c.asked| && Asks(c.f, c.asked[u])
    ensures UpdateOk(c, s.mem, all, c.asked[u], s.updates[u])
  {
    hide MemInv, UpdateOk;
    ValidFormat(c, s.mem, places, all);
  }

  // ------------------------------------------------------------ steps to go

  /** An entry of level `l` takes at most this many steps. */
  function Work(l: nat): (r: nat)
    ensures r >= 1
  {
    if l == 0 then 1 else 512 * Work(l - 1) + 4
  }

  function Left(m: Mapping, l: nat, i: nat): nat {
    if i <= Entries(m, l) then Entries(m, l) - i else 0
  }

  /** What the callers have to do once the frame above them is finished. */
  function CallerRank(fr: Frames): nat {
    match fr
    case Bottom => 0
    case Frame(_, l, m, i, caller) => Left(m, l, i + 1) * Work(l) + 1 + CallerRank(caller)
  }

  function FillRank(fr: Frames): (r: nat)
    ensures r >= 1
  {
    match fr
    case Bottom => 1
    case Frame(_, l, m, i, caller) => Left(m, l, i) * Work(l) + 2 + CallerRank(caller)
  }

  function DownRank(req: Mapping, under: nat): (r: nat)
    ensures r >= 8
  {
    4 * (under + 2) + FillRank(Frame(0, Target(req), req, 0, Bottom))
  }

  /** The steps an update has to go if nobody interferes; what it saw may be out of date once. */
  function UpdateRank(f: Format, mem: Memory, req: Mapping, pc: Updater): int {
    match pc
    case Down(_, under) => DownRank(req, under)
    case Split(p, under, seen) =>
      DownRank(req, under) + if Read(f, mem, p, Index(under + 1, req.vaddr)) == seen then -1 else 1
    case Fill(fr) => FillRank(fr)
    case Link(fr, seen) => FillRank(fr) + if LinkReads(f, mem, fr) == seen then -1 else 1
    case Done => 0
    case Failed => 0
  }

  lemma EnterRank(f: Format, mem: Memory, req: Mapping, p: Page, under: nat)
    requires Target(req) <= under
    ensures UpdateRank(f, mem, req, Enter(req, p, under)) < DownRank(req, under) - 1
  {
    hide Work, Pow2, Target;
  }

  /** One entry less. */
  lemma LeftStep(m: Mapping, l: nat, i: nat)
    requires i < Entries(m, l)
    ensures Left(m, l, i) * Work(l) == Left(m, l, i + 1) * Work(l) + Work(l)
  {
    hide Work;
    assert Left(m, l, i) == Left(m, l, i + 1) + 1;
  }

  /** Going down into the table of one entry is part of the work for it. */
  lemma CallRank(fr: Frames, p: Page)
    requires fr.Frame? && fr.level > 0 && fr.i < Entries(fr.m, fr.level)
    ensures FillRank(Called(fr, p)) < FillRank(fr) - 1
  {
    hide Pow2;
    LeftStep(fr.m, fr.level, fr.i);
    var sub := SubMapping(fr.m, fr.level, fr.i);
    Pow2Nine();
    assert Left(sub, fr.level - 1, 0) == 512;
  }

  lemma ReturnRank(fr: Frames)
    requires fr.Frame? && fr.i >= Entries(fr.m, fr.level) && fr.caller.Frame?
    ensures FillRank(fr.caller.(i := fr.caller.i + 1)) < FillRank(fr)
  {
    hide Work, Pow2;
    assert Left(fr.m, fr.level, fr.i) == 0;
  }

  lemma FillDown(f: Format, mem: Memory, fr: Frames, req: Mapping)
    requires fr.Frame? && f.Valid()
    ensures var r := FillStep(f, mem, fr); r.1 != Failed && 0 <= UpdateRank(f, r.0, req, r.1) < FillRank(fr)
  {
    hide Work, Pow2, Store, Read, LeafFor, Entries;
    var Frame(p, l, m, i, caller) := fr;
    if i >= Entries(m, l) {
      if caller.Frame? { ReturnRank(fr); }
    } else {
      LeftStep(m, l, i);
      if !(l == 0 || l < f.leafLevels || !m.attr.Present()) {
        var e := Read(f, mem, p, Index(l, m.vaddr) + i);
        CallRank(fr, e.frame);
        assert LinkReads(f, mem, fr) == e;
      }
    }
  }

  /** Every step of an update that runs alone, with a page at hand, brings it closer to its end. */
  lemma RankDown(c: Setup, mem: Memory, all: Places, req: Mapping, pc: Updater, n: Page)
    requires c.f.Valid() && UpdateOk(c, mem, all, req, pc) && pc != Done && pc != Failed
    ensures var r := UpdateStep(c.f, mem, req, pc, Some(n));
            r.1 != Failed && 0 <= UpdateRank(c.f, r.0, req, r.1) < UpdateRank(c.f, mem, req, pc)
  {
    hide Work, Hang, Store, Read, FillStep, Passed, FillRank, Target, Entries, Pow2;
    var r := UpdateStep(c.f, mem, req, pc, Some(n));
    Positive(c.f, req, r.0, r.1);
    match pc
    case Down(p, under) => EnterRank(c.f, mem, req, Read(c.f, mem, p, Index(under + 1, req.vaddr)).frame, under);
    case Split(p, under, seen) => EnterRank(c.f, r.0, req, n, under);
    case Fill(fr) => FillDown(c.f, mem, fr, req);
    case Link(fr, seen) =>
      EntriesIsCount(fr.m, fr.level);
      CallRank(fr, n);
  }

  lemma Positive(f: Format, req: Mapping, mem: Memory, pc: Updater)
    ensures UpdateRank(f, mem, req, pc) >= 0
  {
    hide Work, Read;
  }

  // ---------------------------------------------------------------- whole runs

  lemma {:induction false} Above(s: set<nat>) returns (n: nat)
    ensures forall x | x in s :: x < n
  {
    if s == {} {
      n := 0;
    } else {
      var x :| x in s;
      var m := Above(s - {x});
      n := if x < m then m else x + 1;
      forall y | y in s ensures y < n { if y != x { assert y in s - {x}; } }
    }
  }

  /** The moves of update `u` alone, each with a fresh page. */
  ghost predicate Alone(ms: seq<Move>, u: nat) {
    forall i | 0 <= i < |ms| :: ms[i].Update? && ms[i].u == u && ms[i].page.Some?
  }

  /** A run goes on by one move. */
  lemma RunOn(c: Setup, states: seq<State>, moves: seq<Move>, move: Move)
    requires Run(c, states, moves) && Enabled(c, states[|moves|], move)
    ensures Run(c, states + [Next(c, states[|moves|], move)], moves + [move])
  {
    hide Next, Enabled;
    var states', moves' := states + [Next(c, states[|moves|], move)], moves + [move];
    forall i | 0 <= i < |moves'|
      ensures Enabled(c, states'[i], moves'[i]) && states'[i + 1] == Next(c, states'[i], moves'[i])
    {
      if i < |moves| { assert moves'[i] == moves[i]; }
    }
  }

  /**
   Whatever the others did before, and wherever they stand: an update that has not failed gets done if it goes on
   alone with a page for every table it needs.
   */
  lemma {:induction false} UpdateEnds(c: Setup, states: seq<State>, moves: seq<Move>, start: Places, u: nat)
    returns (states': seq<State>, more: seq<Move>)
    requires Run(c, states, moves) && Init(c, states[0], start)
    requires u < |states[|moves|].updates| && states[|moves|].updates[u] != Failed
    ensures Run(c, states', moves + more) && states <= states' && Alone(more, u)
    ensures u < |states'[|moves + more|].updates| && states'[|moves + more|].updates[u] == Done
    decreases RankAt(c, states[|moves|], u)
  {
    hide Init, Inv, UpdateOk, UpdateStep, UpdateRank, Enabled, Asks;
    var s := states[|moves|];
    var places, all := RunInv(c, states, moves, start, |moves|);
    InvAt(c, s, places, all, u);
    if s.updates[u] == Done {
      states', more := states, [];
      assert moves + more == moves;
    } else {
      var n := Above(s.mem.Keys);
      var move := Update(u, Some(n));
      MayMove(c, s, u, n);
      RunOn(c, states, moves, move);
      var states1, moves1 := states + [Next(c, s, move)], moves + [move];
      RankDown(c, s.mem, all, c.asked[u], s.updates[u], n);
      states', more := UpdateEnds(c, states1, moves1, start, u);
      assert moves1 + more == moves + ([move] + more);
      more := [move] + more;
    }
  }

  lemma MayMove(c: Setup, s: State, u: nat, n: Page)
    requires u < |s.updates| == |c.asked| && forall x | x in s.mem.Keys :: x < n
    ensures Enabled(c, s, Update(u, Some(n)))
  {
    assert n in s.mem ==> n in s.mem.Keys;
  }

  function RankAt(c: Setup, s: State, u: nat): nat {
    if u < |s.updates| && u < |c.asked| then
      Positive(c.f, c.asked[u], s.mem, s.updates[u]);
      UpdateRank(c.f, s.mem, c.asked[u], s.updates[u])
    else 0
  }
}
