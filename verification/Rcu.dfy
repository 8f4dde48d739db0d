/**
 Grace periods. Any number of CPUs run `Rcu::call`, `Rcu::update` and `Rcu::quiet` in
 any interleaving of their accesses to the shared `state` word and `count`.
 */
module Rcu {

  /** An element handed to `Rcu::call`, with the time of that call. */
  datatype Elem = Elem(id: nat, calledAt: nat)

  /** The two flag bits of the state word. */
  datatype Flag = Cmp | Pnd

  /** Where a CPU is; `back` is where `start_batch` returns to. */
  datatype Pc =
    | Idle
    | Note                               // update: saw a new batch, about to store it
    | Finish                             // update: about to test whether curr is complete
    | Refill                             // update: about to refill curr from next
    | Invoke                             // update: running the callbacks of done
    | Sub                                // quiet: about to decrement count
    | Start(flag: Flag, back: Pc)        // start_batch: about to read state
    | Swap(flag: Flag, v: nat, back: Pc) // start_batch: about to compare-and-swap
    | Reset(back: Pc)                    // start_batch: about to set count
    | Load(back: Pc)                     // start_batch: reading state for the increment
    | Store(v: nat, back: Pc)            // start_batch: writing the increment

  /**
   CPU-local data. `ran`, `log` and `quietAt` record history: the elements whose
   callback ran, all elements ever called, and the time of the last quiescent point.
   */
  datatype Cpu = Cpu(pc: Pc, lBatch: nat, cBatch: nat, next: seq<Elem>, curr: seq<Elem>, done: seq<Elem>, hazard: bool,
                     ran: seq<Elem>, log: seq<Elem>, quietAt: nat)

  /**
   The whole system. `waiting` (CPUs that have yet to be quiet in the current batch),
   `startAt` (when the current batch started) and `clock` are history as well.
   */
  datatype Sys = Sys(state: nat, count: int, cpus: seq<Cpu>, waiting: set<nat>, startAt: nat, clock: nat) {

    function Batch(): nat { state / 4 }

    predicate Completed() { Has(state, Cmp) }

    function Set(c: nat, cpu: Cpu): Sys
      requires c < |cpus|
    {
      this.(cpus := cpus[c := cpu], clock := clock + 1)
    }
  }

  /** The CPUs `0 .. n`. */
  function All(n: nat): (r: set<nat>)
    ensures forall k: nat :: k in r <==> k < n
    ensures |r| == n
  {
    if n == 0 then {} else All(n - 1) + {n - 1}
  }

  predicate Has(state: nat, f: Flag) {
    match f
    case Cmp => state % 4 == 1 || state % 4 == 3
    case Pnd => state % 4 == 2 || state % 4 == 3
  }

  function Other(f: Flag): Flag {
    if f == Cmp then Pnd else Cmp
  }

  function Raise(state: nat, f: Flag): nat {
    if Has(state, f) then state else state + (if f == Cmp then 1 else 2)
  }

  /** `complete(b)`: signed comparison of the state word without RCU_PND against `b << 2`. */
  predicate Complete(state: nat, b: nat) {
    state - (if Has(state, Pnd) then 2 else 0) > 4 * b
  }

  predicate Listed(q: seq<Elem>, id: nat) {
    exists i | 0 <= i < |q| :: q[i].id == id
  }

  /** The element stands in some list of some CPU. */
  predicate Queued(s: Sys, id: nat) {
    exists k | 0 <= k < |s.cpus| ::
      Listed(s.cpus[k].next, id) || Listed(s.cpus[k].curr, id) || Listed(s.cpus[k].done, id)
  }

  datatype Step =
    | Call(e: Elem)  // Rcu::call; a queued element is left where it is
    | BeginUpdate    // Rcu::update: first comparison of l_batch with batch()
    | BeginQuiet     // answer a raised HZD_RCU
    | Run            // the CPU's next step inside a call

  predicate Enabled(s: Sys, c: nat, step: Step) {
    && c < |s.cpus|
    && var cpu := s.cpus[c];
       match step
       case Call(e) => (cpu.pc == Idle || cpu.pc == Invoke) && e.calledAt == s.clock
       case BeginUpdate => cpu.pc == Idle
       case BeginQuiet => cpu.pc == Idle && cpu.hazard
       case Run => cpu.pc != Idle
  }

  function Apply(s: Sys, c: nat, step: Step): Sys
    requires Enabled(s, c, step)
  {
    var cpu := s.cpus[c];
    match step
    case Call(e) => s.Set(c, if Queued(s, e.id) then cpu else cpu.(next := cpu.next + [e], log := cpu.log + [e]))
    case BeginUpdate => s.Set(c, cpu.(pc := if cpu.lBatch != s.Batch() then Note else Finish))
    case BeginQuiet => s.Set(c, cpu.(hazard := false, pc := Sub))
    case Run => Advance(s, c)
  }

  /** One step of the running operation of CPU `c`. */
  function Advance(s: Sys, c: nat): Sys
    requires c < |s.cpus| && s.cpus[c].pc != Idle
  {
    var cpu := s.cpus[c];
    match cpu.pc
    case Note =>
      s.Set(c, cpu.(lBatch := s.Batch(), hazard := true, pc := Finish))
    case Finish =>
      if cpu.curr != [] && Complete(s.state, cpu.cBatch) then
        s.Set(c, cpu.(done := cpu.done + cpu.curr, curr := [], pc := Refill))
      else s.Set(c, cpu.(pc := Refill))
    case Refill =>
      if cpu.curr == [] && cpu.next != [] then
        s.Set(c, cpu.(curr := cpu.next, next := [], cBatch := cpu.lBatch + 1, pc := Start(Pnd, Invoke)))
      else s.Set(c, cpu.(pc := Invoke))
    case Invoke =>
      if cpu.done == [] then s.Set(c, cpu.(pc := Idle))
      else s.Set(c, cpu.(ran := cpu.ran + [cpu.done[0]], done := cpu.done[1..]))
    case Sub =>
      s.(count := s.count - 1, waiting := s.waiting - {c})
       .Set(c, cpu.(quietAt := s.clock + 1, pc := if s.count - 1 == 0 then Start(Cmp, Idle) else Idle))
    case Start(f, back) =>
      if s.Batch() != cpu.lBatch || Has(s.state, f) then s.Set(c, cpu.(pc := back))
      else s.Set(c, cpu.(pc := Swap(f, s.state, back)))
    case Swap(f, v, back) =>
      if s.state != v then s.Set(c, cpu.(pc := Start(f, back)))
      else s.(state := Raise(v, f)).Set(c, cpu.(pc := if Has(v, Other(f)) then Reset(back) else back))
    case Reset(back) =>
      s.(count := |s.cpus|).Set(c, cpu.(pc := Load(back)))
    case Load(back) =>
      s.Set(c, cpu.(pc := Store(s.state, back)))
    case Store(v, back) =>
      s.(state := v + 1, waiting := All(|s.cpus|), startAt := s.clock).Set(c, cpu.(pc := back))
  }

  /** Batch 0 is complete and nothing has happened yet. */
  predicate Init(s: Sys) {
    && |s.cpus| > 0 && s.state == 1 && s.count == 0 && s.waiting == {} && s.startAt == 0 && s.clock == 1
    && forall k | 0 <= k < |s.cpus| :: s.cpus[k] == Cpu(Idle, 0, 0, [], [], [], false, [], [], 1)
  }

  // ---------------------------------------------------------------- invariant

  /** In the part of `start_batch` that only the starter of the next batch reaches. */
  predicate Starting(pc: Pc) {
    pc.Reset? || pc.Load? || pc.Store?
  }

  /** About to report the batch complete. */
  predicate Completing(pc: Pc) {
    (pc.Start? || pc.Swap?) && pc.flag == Cmp
  }

  /** Every CPU has been quiet after time `t`. */
  ghost predicate QuietSince(s: Sys, t: nat) {
    forall j | 0 <= j < |s.cpus| :: t < s.cpus[j].quietAt
  }

  ghost predicate PcInv(s: Sys, k: nat)
    requires k < |s.cpus|
  {
    var cpu := s.cpus[k];
    && (cpu.pc == Note ==> cpu.lBatch != s.Batch())
    && (cpu.pc.Start? || cpu.pc.Swap? ==> cpu.pc.back == if cpu.pc.flag == Pnd then Invoke else Idle)
    && (Completing(cpu.pc) ==> s.waiting == {} && !s.Completed())
    && (cpu.pc.Swap? ==> cpu.pc.v / 4 == cpu.lBatch && !Has(cpu.pc.v, cpu.pc.flag))
    && (Starting(cpu.pc) ==> s.state % 4 == 3 && cpu.pc.back in {Invoke, Idle})
    && (cpu.pc.Store? ==> cpu.pc.v == s.state)
    && (cpu.pc.Load? || cpu.pc.Store? ==> s.count == |s.cpus|)
  }

  /** Batches a CPU knows about, and whether it still owes a quiescent point. */
  ghost predicate BatchInv(s: Sys, k: nat)
    requires k < |s.cpus|
  {
    var cpu := s.cpus[k];
    && (cpu.lBatch == s.Batch() || (cpu.lBatch + 1 == s.Batch() && k in s.waiting))
    && (cpu.hazard || cpu.pc == Sub <==> k in s.waiting && cpu.lBatch == s.Batch())
    && !(cpu.hazard && cpu.pc == Sub)
    && cpu.quietAt <= s.clock
    && (k !in s.waiting ==> s.startAt < cpu.quietAt)
  }

  /** The elements of a CPU and the grace periods they have seen. */
  ghost predicate ListInv(s: Sys, k: nat)
    requires k < |s.cpus|
  {
    var cpu := s.cpus[k];
    && cpu.log == cpu.ran + cpu.done + cpu.curr + cpu.next
    && (forall e | e in cpu.next :: e.calledAt < s.clock)
    && (forall e | e in cpu.curr :: e.calledAt < s.clock)
    && ((cpu.pc == Finish || cpu.pc == Refill) && cpu.lBatch != s.Batch() ==>
        forall e | e in cpu.next :: e.calledAt < s.startAt)
    && (cpu.curr != [] ==>
          && cpu.cBatch <= cpu.lBatch + 1
          && (cpu.lBatch <= cpu.cBatch
              || (s.Batch() == cpu.lBatch == cpu.cBatch + 1 && cpu.pc == Finish && k in s.waiting))
          && (cpu.cBatch == s.Batch() ==> forall e | e in cpu.curr :: e.calledAt < s.startAt)
          && (cpu.cBatch < s.Batch() ==> forall e | e in cpu.curr :: QuietSince(s, e.calledAt)))
    && (forall e | e in cpu.done :: QuietSince(s, e.calledAt))
    && (forall e | e in cpu.ran :: QuietSince(s, e.calledAt))
  }

  ghost predicate CpuInv(s: Sys, k: nat)
    requires k < |s.cpus|
  {
    PcInv(s, k) && BatchInv(s, k) && ListInv(s, k)
  }

  ghost predicate SysInv(s: Sys) {
    && |s.cpus| > 0
    && s.startAt < s.clock
    && s.waiting <= All(|s.cpus|)
    && (s.Completed() ==> s.waiting == {})
    && ((forall k | 0 <= k < |s.cpus| :: !s.cpus[k].pc.Load? && !s.cpus[k].pc.Store?) ==> s.count == |s.waiting|)
    && (forall i, j | 0 <= i < j < |s.cpus| :: !(Starting(s.cpus[i].pc) && Starting(s.cpus[j].pc)))
    && (forall i, j | 0 <= i < j < |s.cpus| :: !(Completing(s.cpus[i].pc) && Completing(s.cpus[j].pc)))
  }

  ghost predicate Inv(s: Sys) {
    SysInv(s) && forall k {:trigger CpuInv(s, k)} | 0 <= k < |s.cpus| :: CpuInv(s, k)
  }

  lemma InitInv(s: Sys)
    requires Init(s)
    ensures Inv(s)
  {
    forall k | 0 <= k < |s.cpus| ensures CpuInv(s, k) { }
  }

  /** Shared data that other CPUs' invariants depend on. */
  ghost predicate SameShared(s: Sys, s': Sys) {
    && s'.state == s.state && s'.waiting == s.waiting && s'.startAt == s.startAt && s.clock <= s'.clock
    && |s'.cpus| == |s.cpus|
    && forall j | 0 <= j < |s.cpus| :: s.cpus[j].quietAt <= s'.cpus[j].quietAt
  }

  /** A CPU that did not move keeps its invariant. */
  lemma Frame(s: Sys, s': Sys, k: nat)
    requires k < |s.cpus| && CpuInv(s, k) && SameShared(s, s') && s'.cpus[k] == s.cpus[k]
    requires s'.count == s.count || !(s.cpus[k].pc.Load? || s.cpus[k].pc.Store?)
    ensures CpuInv(s', k)
  {
  }

  predicate Counting(pc: Pc) {
    pc.Load? || pc.Store?
  }

  /** A step that touches only the CPU's own data. */
  lemma LocalStep(s: Sys, c: nat, cpu: Cpu)
    requires Inv(s) && c < |s.cpus| && cpu.quietAt == s.cpus[c].quietAt
    requires Starting(cpu.pc) ==> Starting(s.cpus[c].pc)
    requires Completing(cpu.pc) ==> Completing(s.cpus[c].pc)
    requires Counting(s.cpus[c].pc) ==> Counting(cpu.pc)
    requires CpuInv(s.Set(c, cpu), c)
    ensures Inv(s.Set(c, cpu))
  {
    var s' := s.Set(c, cpu);
    forall k | 0 <= k < |s.cpus| && k != c ensures CpuInv(s', k) { assert CpuInv(s, k); Frame(s, s', k); }
    if forall k | 0 <= k < |s.cpus| :: !s'.cpus[k].pc.Load? && !s'.cpus[k].pc.Store? {
      assert !Counting(s'.cpus[c].pc);
      forall k | 0 <= k < |s.cpus| ensures !s.cpus[k].pc.Load? && !s.cpus[k].pc.Store? {
        assert k != c ==> s'.cpus[k] == s.cpus[k];
      }
    }
  }

  lemma At(s: Sys, k: nat)
    requires Inv(s) && k < |s.cpus|
    ensures CpuInv(s, k)
  {
  }

  /** Only one CPU at a time is starting a batch. */
  lemma OnlyStarter(s: Sys, c: nat, k: nat)
    requires Inv(s) && c < |s.cpus| && k < |s.cpus| && k != c && Starting(s.cpus[c].pc)
    ensures !Starting(s.cpus[k].pc)
  {
  }

  lemma CallStep(s: Sys, c: nat, e: Elem)
    requires Inv(s) && Enabled(s, c, Call(e))
    ensures Inv(Apply(s, c, Call(e)))
  {
    hide Inv, SysInv;
    var cpu := s.cpus[c];
    At(s, c);
    var cpu' := if Queued(s, e.id) then cpu else cpu.(next := cpu.next + [e], log := cpu.log + [e]);
    assert cpu'.log == cpu'.ran + cpu'.done + cpu'.curr + cpu'.next;
    LocalStep(s, c, cpu');
  }

  lemma BeginStep(s: Sys, c: nat, step: Step)
    requires Inv(s) && Enabled(s, c, step) && (step.BeginUpdate? || step.BeginQuiet?)
    ensures Inv(Apply(s, c, step))
  {
    hide Inv, SysInv;
    At(s, c);
    LocalStep(s, c, Apply(s, c, step).cpus[c]);
  }

  lemma NoteStep(s: Sys, c: nat)
    requires Inv(s) && c < |s.cpus| && s.cpus[c].pc == Note
    ensures Inv(Advance(s, c))
  {
    hide Inv, SysInv;
    At(s, c);
    LocalStep(s, c, Advance(s, c).cpus[c]);
  }

  lemma FinishStep(s: Sys, c: nat)
    requires Inv(s) && c < |s.cpus| && s.cpus[c].pc == Finish
    ensures Inv(Advance(s, c))
  {
    hide Inv, SysInv;
    var cpu := s.cpus[c];
    At(s, c);
    var cpu' := Advance(s, c).cpus[c];
    if cpu.curr != [] && Complete(s.state, cpu.cBatch) {
      assert cpu'.log == cpu'.ran + cpu'.done + cpu'.curr + cpu'.next;
      GraceOver(s, c);
    }
    LocalStep(s, c, cpu');
  }

  lemma RefillStep(s: Sys, c: nat)
    requires Inv(s) && c < |s.cpus| && s.cpus[c].pc == Refill
    ensures Inv(Advance(s, c))
  {
    hide Inv, SysInv;
    At(s, c);
    var cpu' := Advance(s, c).cpus[c];
    assert cpu'.log == cpu'.ran + cpu'.done + cpu'.curr + cpu'.next;
    LocalStep(s, c, cpu');
  }

  lemma HeadMoves(a: seq<Elem>, b: seq<Elem>, c: seq<Elem>, d: seq<Elem>)
    requires b != []
    ensures a + b + c + d == (a + [b[0]]) + b[1..] + c + d
  {
    assert b == [b[0]] + b[1..];
  }

  lemma InvokeStep(s: Sys, c: nat)
    requires Inv(s) && c < |s.cpus| && s.cpus[c].pc == Invoke
    ensures Inv(Advance(s, c))
  {
    hide Inv, SysInv;
    At(s, c);
    var cpu' := Advance(s, c).cpus[c];
    if s.cpus[c].done != [] { HeadMoves(s.cpus[c].ran, s.cpus[c].done, s.cpus[c].curr, s.cpus[c].next); }
    LocalStep(s, c, cpu');
  }

  /** When the batch of `curr` is complete, every CPU has been quiet since its elements were called. */
  lemma GraceOver(s: Sys, c: nat)
    requires Inv(s) && c < |s.cpus| && s.cpus[c].curr != [] && Complete(s.state, s.cpus[c].cBatch)
    ensures forall e | e in s.cpus[c].curr :: QuietSince(s, e.calledAt)
  {
    assert CpuInv(s, c);
    if s.cpus[c].cBatch == s.Batch() {
      assert s.Completed();
      forall j | 0 <= j < |s.cpus| ensures s.startAt < s.cpus[j].quietAt { assert CpuInv(s, j); }
    }
  }

  lemma StartStep(s: Sys, c: nat)
    requires Inv(s) && c < |s.cpus| && s.cpus[c].pc.Start?
    ensures Inv(Advance(s, c))
  {
    hide Inv, SysInv;
    At(s, c);
    LocalStep(s, c, Advance(s, c).cpus[c]);
  }

  lemma LoadStep(s: Sys, c: nat)
    requires Inv(s) && c < |s.cpus| && s.cpus[c].pc.Load?
    ensures Inv(Advance(s, c))
  {
    hide Inv, SysInv;
    At(s, c);
    LocalStep(s, c, Advance(s, c).cpus[c]);
  }

  lemma SwapFails(s: Sys, c: nat)
    requires Inv(s) && c < |s.cpus| && s.cpus[c].pc.Swap? && s.state != s.cpus[c].pc.v
    ensures Inv(Advance(s, c))
  {
    hide Inv, SysInv;
    At(s, c);
    LocalStep(s, c, Advance(s, c).cpus[c]);
  }

  /** Setting one flag bit: only whoever sets the second one goes on to start a batch. */
  lemma SwapStep(s: Sys, c: nat)
    requires Inv(s) && c < |s.cpus| && s.cpus[c].pc.Swap?
    ensures Inv(Advance(s, c))
  {
    hide SysInv, ListInv, BatchInv;
    At(s, c);
    if s.state != s.cpus[c].pc.v {
      SwapFails(s, c);
    } else {
      FlagBits(s.state, s.cpus[c].pc.flag);
      forall k | 0 <= k < |s.cpus| ensures !Starting(s.cpus[k].pc) { NotStarting(s, k); }
      FlagSys(s, c);
      forall k | 0 <= k < |s.cpus| ensures CpuInv(Advance(s, c), k) {
        At(s, k);
        FlagFrame(s, c, k);
      }
    }
  }

  lemma NotStarting(s: Sys, k: nat)
    requires Inv(s) && k < |s.cpus| && s.state % 4 != 3
    ensures !Starting(s.cpus[k].pc)
  {
    hide ListInv, BatchInv;
    At(s, k);
  }

  lemma FlagSys(s: Sys, c: nat)
    requires Inv(s) && c < |s.cpus| && s.cpus[c].pc.Swap? && s.state == s.cpus[c].pc.v
    requires forall j | 0 <= j < |s.cpus| :: !Starting(s.cpus[j].pc)
    ensures SysInv(Advance(s, c))
  {
    hide ListInv, BatchInv;
    At(s, c);
    FlagBits(s.state, s.cpus[c].pc.flag);
  }

  lemma FlagBits(v: nat, f: Flag)
    requires !Has(v, f)
    ensures Raise(v, f) / 4 == v / 4 && Has(Raise(v, f), f) && (Has(Raise(v, f), Other(f)) <==> Has(v, Other(f)))
    ensures v % 4 != 3
    ensures Raise(v, f) % 4 == 3 <==> Has(v, Other(f))
  {
    assert v == 4 * (v / 4) + v % 4;
  }

  lemma FlagFrame(s: Sys, c: nat, k: nat)
    requires Inv(s) && c < |s.cpus| && k < |s.cpus| && s.cpus[c].pc.Swap? && s.state == s.cpus[c].pc.v
    requires CpuInv(s, c) && CpuInv(s, k) && (forall j | 0 <= j < |s.cpus| :: !Starting(s.cpus[j].pc))
    ensures CpuInv(Advance(s, c), k)
  {
    FlagBits(s.state, s.cpus[c].pc.flag);
  }

  lemma ResetStep(s: Sys, c: nat)
    requires Inv(s) && c < |s.cpus| && s.cpus[c].pc.Reset?
    ensures Inv(Advance(s, c))
  {
    hide ListInv, BatchInv;
    var s' := Advance(s, c);
    forall k | 0 <= k < |s.cpus| && k != c ensures CpuInv(s', k) {
      At(s, k);
      OnlyStarter(s, c, k);
      Frame(s, s', k);
    }
    ResetOwn(s, c);
    assert s'.cpus[c].pc.Load?;
  }

  lemma ResetOwn(s: Sys, c: nat)
    requires Inv(s) && c < |s.cpus| && s.cpus[c].pc.Reset?
    ensures CpuInv(Advance(s, c), c)
  {
    hide Inv, SysInv;
    At(s, c);
  }

  /** The last waiting CPU is the one that reports the batch complete. */
  lemma SubStep(s: Sys, c: nat)
    requires Inv(s) && c < |s.cpus| && s.cpus[c].pc == Sub
    ensures Inv(Advance(s, c)) && s.count == |s.waiting| > 0
  {
    assert CpuInv(s, c);
    var s' := Advance(s, c);
    forall k | 0 <= k < |s.cpus| ensures !Starting(s.cpus[k].pc) && !Completing(s.cpus[k].pc) { assert CpuInv(s, k); }
    assert |s.waiting - {c}| == |s.waiting| - 1;
    forall k | 0 <= k < |s.cpus| ensures CpuInv(s', k) {
      assert CpuInv(s, k);
      QuietFrame(s, c, k);
    }
  }

  lemma QuietFrame(s: Sys, c: nat, k: nat)
    requires Inv(s) && c < |s.cpus| && k < |s.cpus| && s.cpus[c].pc == Sub && CpuInv(s, c) && CpuInv(s, k)
    requires s.count == |s.waiting| && |s.waiting - {c}| == |s.waiting| - 1 && !Starting(s.cpus[k].pc)
    requires !Completing(s.cpus[k].pc)
    ensures CpuInv(Advance(s, c), k)
  {
    var s' := Advance(s, c);
    assert forall t: nat | QuietSince(s, t) :: QuietSince(s', t);
    assert BatchInv(s', k);
    assert PcInv(s', k);
    assert ListInv(s', k);
  }

  /** When a batch is about to start, every CPU has been quiet in the last one and no other is starting. */
  lemma ReadyToStart(s: Sys, c: nat, k: nat)
    requires Inv(s) && c < |s.cpus| && k < |s.cpus| && s.cpus[c].pc.Store?
    ensures s.waiting == {} && s.startAt < s.cpus[k].quietAt && !Completing(s.cpus[k].pc)
    ensures k != c ==> !Starting(s.cpus[k].pc)
    ensures CpuInv(s, c) && CpuInv(s, k)
  {
    hide ListInv, QuietSince;
    At(s, c);
    At(s, k);
    if k != c { OnlyStarter(s, c, k); }
  }

  /** A new batch: everybody owes a quiescent point again. */
  lemma StoreStep(s: Sys, c: nat)
    requires Inv(s) && c < |s.cpus| && s.cpus[c].pc.Store?
    ensures Inv(Advance(s, c)) && Advance(s, c).Batch() == s.Batch() + 1
  {
    hide CpuInv, ListInv, BatchInv;
    forall k | 0 <= k < |s.cpus|
      ensures s.waiting == {} && s.startAt < s.cpus[k].quietAt && !Completing(s.cpus[k].pc) && CpuInv(s, k)
      ensures k != c ==> !Starting(s.cpus[k].pc)
    {
      ReadyToStart(s, c, k);
    }
    NewBatchSys(s, c);
    forall k | 0 <= k < |s.cpus| ensures CpuInv(Advance(s, c), k) {
      NewBatchFrame(s, c, k);
    }
  }

  lemma NewBatchSys(s: Sys, c: nat)
    requires Inv(s) && c < |s.cpus| && s.cpus[c].pc.Store?
    requires forall k | 0 <= k < |s.cpus| :: (k != c ==> !Starting(s.cpus[k].pc)) && !Completing(s.cpus[k].pc)
    ensures SysInv(Advance(s, c)) && Advance(s, c).Batch() == s.Batch() + 1
  {
    hide ListInv, BatchInv;
    At(s, c);
  }

  lemma NewBatchFrame(s: Sys, c: nat, k: nat)
    requires Inv(s) && c < |s.cpus| && k < |s.cpus| && s.cpus[c].pc.Store? && CpuInv(s, c) && CpuInv(s, k)
    requires s.waiting == {} && (k != c ==> !Starting(s.cpus[k].pc)) && !Completing(s.cpus[k].pc)
    requires forall j | 0 <= j < |s.cpus| :: s.startAt < s.cpus[j].quietAt
    ensures CpuInv(Advance(s, c), k)
  {
    var s' := Advance(s, c);
    assert s'.Batch() == s.Batch() + 1;
    assert forall t: nat | QuietSince(s, t) :: QuietSince(s', t);
    assert PcInv(s', k);
    assert BatchInv(s', k);
    if s.cpus[k].curr != [] && s.cpus[k].cBatch == s.Batch() {
      forall e | e in s.cpus[k].curr ensures QuietSince(s', e.calledAt) { }
    }
    assert ListInv(s', k);
  }

  /** Every step of every CPU keeps the invariant. */
  lemma InvStep(s: Sys, c: nat, step: Step)
    requires Inv(s) && Enabled(s, c, step)
    ensures Inv(Apply(s, c, step))
  {
    match step
    case Call(e) => CallStep(s, c, e);
    case BeginUpdate => BeginStep(s, c, step);
    case BeginQuiet => BeginStep(s, c, step);
    case Run =>
      match s.cpus[c].pc
      case Note => NoteStep(s, c);
      case Finish => FinishStep(s, c);
      case Refill => RefillStep(s, c);
      case Invoke => InvokeStep(s, c);
      case Sub => SubStep(s, c);
      case Start(_, _) => StartStep(s, c);
      case Swap(_, _, _) => SwapStep(s, c);
      case Reset(_) => ResetStep(s, c);
      case Load(_) => LoadStep(s, c);
      case Store(_, _) => StoreStep(s, c);
  }

  // ----------------------------------------------------------------- all runs

  datatype Move = Move(cpu: nat, step: Step)

  /** `states` is a run of the system under the moves `moves`. */
  ghost predicate IsRun(states: seq<Sys>, moves: seq<Move>) {
    && |states| == |moves| + 1
    && Init(states[0])
    && forall i {:trigger moves[i]} | 0 <= i < |moves| ::
         && Enabled(states[i], moves[i].cpu, moves[i].step)
         && states[i + 1] == Apply(states[i], moves[i].cpu, moves[i].step)
  }

  lemma {:induction false} RunInv(states: seq<Sys>, moves: seq<Move>, i: nat)
    requires IsRun(states, moves) && i < |states|
    ensures Inv(states[i])
    decreases i
  {
    hide Inv, Init, Apply, Enabled;
    if i == 0 {
      InitInv(states[0]);
    } else {
      RunInv(states, moves, i - 1);
      var m := moves[i - 1];
      InvStep(states[i - 1], m.cpu, m.step);
    }
  }

  /** The callback that move `i` of a run starts, if it starts one. */
  predicate Invokes(s: Sys, m: Move, e: Elem) {
    && m.step == Run && m.cpu < |s.cpus| && s.cpus[m.cpu].pc == Invoke
    && s.cpus[m.cpu].done != [] && s.cpus[m.cpu].done[0] == e
  }

  /**
   Grace periods are safe: in every run, when a callback is invoked, every CPU has
   been through a quiescent point later than the `Rcu::call` of that element.
   */
  lemma GracePeriod(states: seq<Sys>, moves: seq<Move>, i: nat, e: Elem)
    requires IsRun(states, moves) && i < |moves| && Invokes(states[i], moves[i], e)
    ensures QuietSince(states[i], e.calledAt)
  {
    RunInv(states, moves, i);
    At(states[i], moves[i].cpu);
  }

  /** Callbacks run in the order of the calls, none twice and none dropped. */
  lemma CallbackOrder(states: seq<Sys>, moves: seq<Move>, i: nat, c: nat)
    requires IsRun(states, moves) && i < |states| && c < |states[i].cpus|
    ensures var cpu := states[i].cpus[c]; cpu.log == cpu.ran + cpu.done + cpu.curr + cpu.next
  {
    RunInv(states, moves, i);
    At(states[i], c);
  }

  /** All that a CPU has in its lists. */
  function InLists(cpu: Cpu): seq<Elem> {
    cpu.done + cpu.curr + cpu.next
  }

  /** No element stands in the lists twice. */
  ghost predicate Once(s: Sys) {
    forall j, k, a, b | 0 <= j < |s.cpus| && 0 <= k < |s.cpus| && 0 <= a < |InLists(s.cpus[j])|
      && 0 <= b < |InLists(s.cpus[k])|
                        && InLists(s.cpus[j])[a].id == InLists(s.cpus[k])[b].id :: j == k && a == b
  }

  /** A step changes the lists of its own CPU only: one new element at the end, the first one gone, or none. */
  lemma ListsStep(s: Sys, c: nat, step: Step)
    requires Enabled(s, c, step)
    ensures var s' := Apply(s, c, step);
            && |s'.cpus| == |s.cpus| && (forall k | 0 <= k < |s.cpus| && k != c :: s'.cpus[k] == s.cpus[k])
            && var was, now := InLists(s.cpus[c]), InLists(s'.cpus[c]);
            now == was || (was != [] && now == was[1..])
              || (step.Call? && !Queued(s, step.e.id) && now == was + [step.e])
  {
    var cpu, s' := s.cpus[c], Apply(s, c, step);
    if step.Call? {
      assert cpu.done + cpu.curr + (cpu.next + [step.e]) == InLists(cpu) + [step.e];
    } else if step.Run? && cpu.pc == Invoke && cpu.done != [] {
      assert cpu.done[1..] + cpu.curr + cpu.next == InLists(cpu)[1..];
    } else if step.Run? && cpu.pc == Finish {
      assert (cpu.done + cpu.curr) + [] + cpu.next == InLists(cpu);
    } else if step.Run? && cpu.pc == Refill && cpu.curr == [] {
      assert cpu.done + cpu.next + [] == InLists(cpu);
    }
  }

  lemma QueuedIs(s: Sys, k: nat, a: nat)
    requires k < |s.cpus| && a < |InLists(s.cpus[k])|
    ensures Queued(s, InLists(s.cpus[k])[a].id)
  {
    var cpu, e := s.cpus[k], InLists(s.cpus[k])[a];
    if a < |cpu.done| {
      assert cpu.done[a] == e;
    } else if a < |cpu.done| + |cpu.curr| {
      assert cpu.curr[a - |cpu.done|] == e;
    } else {
      assert cpu.next[a - |cpu.done| - |cpu.curr|] == e;
    }
  }

  lemma OnceStep(s: Sys, c: nat, step: Step)
    requires Once(s) && Enabled(s, c, step)
    ensures Once(Apply(s, c, step))
  {
    hide InLists, Queued;
    var s' := Apply(s, c, step);
    ListsStep(s, c, step);
    var was, now := InLists(s.cpus[c]), InLists(s'.cpus[c]);
    forall j: nat, k: nat, a: nat, b: nat | j < |s'.cpus| && k < |s'.cpus| && a < |InLists(s'.cpus[j])|
      && b < |InLists(s'.cpus[k])|
                            && InLists(s'.cpus[j])[a].id == InLists(s'.cpus[k])[b].id
      ensures j == k && a == b
    {
      OldPlace(s, s', c, step, j, a);
      OldPlace(s, s', c, step, k, b);
    }
  }

  /** An element of the lists after a step is the called one, or was there before, at a place that tells them apart. */
  lemma OldPlace(s: Sys, s': Sys, c: nat, step: Step, k: nat, b: nat)
    requires c < |s.cpus| == |s'.cpus| && (forall k | 0 <= k < |s.cpus| && k != c :: s'.cpus[k] == s.cpus[k])
    requires k < |s.cpus| && b < |InLists(s'.cpus[k])|
    requires var was, now := InLists(s.cpus[c]), InLists(s'.cpus[c]);
             now == was || (was != [] && now == was[1..])
               || (step.Call? && !Queued(s, step.e.id) && now == was + [step.e])
    ensures var was, now := InLists(s.cpus[c]), InLists(s'.cpus[c]);
            var b' := if k == c && |now| < |was| then b + 1 else b;
            var e := InLists(s'.cpus[k])[b];
            if k == c && b == |was| then step.Call? && e == step.e && !Queued(s, e.id)
            else b' < |InLists(s.cpus[k])| && InLists(s.cpus[k])[b'] == e && Queued(s, e.id)
  {
    hide InLists, Queued;
    var was, now := InLists(s.cpus[c]), InLists(s'.cpus[c]);
    var b' := if k == c && |now| < |was| then b + 1 else b;
    if !(k == c && b == |was|) { QueuedIs(s, k, b'); }
  }

  /** In every run no element is queued twice, so each accepted call leads to one callback. */
  lemma {:induction false} QueuedOnce(states: seq<Sys>, moves: seq<Move>, i: nat)
    requires IsRun(states, moves) && i < |states|
    ensures Once(states[i])
  {
    hide Once, Apply;
    if i > 0 {
      QueuedOnce(states, moves, i - 1);
      OnceStep(states[i - 1], moves[i - 1].cpu, moves[i - 1].step);
    } else {
      NoneYet(states[0]);
    }
  }

  lemma NoneYet(s: Sys)
    requires Init(s)
    ensures Once(s)
  {
  }

  /** Each batch is started by one CPU, alone, after every CPU was quiet in the batch before. */
  lemma OneStarter(states: seq<Sys>, moves: seq<Move>, i: nat, k: nat)
    requires IsRun(states, moves) && i < |moves| && states[i + 1].Batch() != states[i].Batch()
    requires k < |states[i].cpus|
    ensures states[i + 1].Batch() == states[i].Batch() + 1
    ensures moves[i].cpu < |states[i].cpus| && states[i].cpus[moves[i].cpu].pc.Store?
    ensures k != moves[i].cpu ==> !Starting(states[i].cpus[k].pc)
    ensures states[i].startAt < states[i].cpus[k].quietAt
  {
    RunInv(states, moves, i);
    var s, c := states[i], moves[i].cpu;
    At(s, c);
    if moves[i].step == Run && s.cpus[c].pc.Swap? && s.state == s.cpus[c].pc.v {
      FlagBits(s.state, s.cpus[c].pc.flag);
    }
    ReadyToStart(s, c, k);
    StoreStep(s, c);
  }

  /** `complete` as computed on 64-bit words. */
  predicate CompleteWord(state: nat, b: nat) {
    var d := (state - (if Has(state, Pnd) then 2 else 0) - 4 * b) % 0x1_0000_0000_0000_0000;
    0 < d < 0x8000_0000_0000_0000
  }

  /** Wrap-around of the 64-bit state word and batch numbers cannot confuse `complete`. */
  lemma WordComplete(states: seq<Sys>, moves: seq<Move>, i: nat, c: nat)
    requires IsRun(states, moves) && i < |states| && c < |states[i].cpus|
    requires states[i].cpus[c].pc == Finish && states[i].cpus[c].curr != []
    ensures CompleteWord(states[i].state % 0x1_0000_0000_0000_0000, states[i].cpus[c].cBatch % 0x1_0000_0000_0000_0000)
       <==> Complete(states[i].state, states[i].cpus[c].cBatch)
  {
    RunInv(states, moves, i);
    At(states[i], c);
    NearWords(states[i].state, states[i].cpus[c].cBatch);
  }

  lemma NearWords(state: nat, b: nat)
    requires state / 4 <= b + 1 && b <= state / 4 + 1
    ensures CompleteWord(state % 0x1_0000_0000_0000_0000, b % 0x1_0000_0000_0000_0000) <==> Complete(state, b)
  {
    var i, j := state / 0x1_0000_0000_0000_0000, b / 0x1_0000_0000_0000_0000;
    var w, x := state % 0x1_0000_0000_0000_0000, b % 0x1_0000_0000_0000_0000;
    assert state == i * 0x1_0000_0000_0000_0000 + w && b == j * 0x1_0000_0000_0000_0000 + x;
    assert w % 4 == state % 4;
    Distance(state, b);
    var p := if Has(state, Pnd) then 2 else 0;
    SameWord(w - p - 4 * x, state - p - 4 * b, 4 * j - i);
  }

  lemma Distance(state: nat, b: nat)
    requires state / 4 <= b + 1 && b <= state / 4 + 1
    ensures -4 <= state - 4 * b <= 7
  {
  }

  /** Adding multiples of the word size does not change a word. */
  lemma SameWord(a: int, d: int, k: int)
    requires a == d + k * 0x1_0000_0000_0000_0000 && -12 <= d <= 12
    ensures 0 < a % 0x1_0000_0000_0000_0000 < 0x8000_0000_0000_0000 <==> d > 0
  {
  }
}
