/**
 Grace periods end. From every state of every run, once each CPU has finished what it is doing, six rounds in which each
 CPU in turn updates and answers its hazard bring the callback of every queued element to run.
 */
module RcuProgress {
  import opened Rcu

  // ----------------------------------------------- what keeps the protocol going

  /** When nobody is waited for, the batch is complete or somebody is about to say so. */
  ghost predicate Reported(s: Sys) {
    s.waiting == {} ==> s.Completed() || exists k :: 0 <= k < |s.cpus| && Completing(s.cpus[k].pc)
  }

  /** When both flags are set, somebody is starting the next batch. */
  ghost predicate Started(s: Sys) {
    s.state % 4 == 3 ==> exists k :: 0 <= k < |s.cpus| && Starting(s.cpus[k].pc)
  }

  predicate Requesting(pc: Pc) {
    (pc.Start? || pc.Swap?) && pc.flag == Pnd
  }

  /** A CPU whose elements wait for the next batch has asked for it, or is about to. */
  predicate Asked(s: Sys, k: nat)
    requires k < |s.cpus|
  {
    s.cpus[k].curr != [] && s.cpus[k].cBatch == s.Batch() + 1 ==> Has(s.state, Pnd) || Requesting(s.cpus[k].pc)
  }

  ghost predicate Live(s: Sys) {
    && Inv(s) && Reported(s) && Started(s)
    && forall k {:trigger Asked(s, k)} | 0 <= k < |s.cpus| :: Asked(s, k)
  }

  lemma InitLive(s: Sys)
    requires Init(s)
    ensures Live(s)
  {
    InitInv(s);
  }

  /** Whoever is about to report a batch complete knows it as the current one. */
  lemma ReporterCurrent(s: Sys, c: nat)
    requires Inv(s) && c < |s.cpus| && Completing(s.cpus[c].pc)
    ensures s.cpus[c].lBatch == s.Batch() && !s.Completed()
  {
    hide ListInv;
    At(s, c);
  }

  /** What a step does to the shared words: nothing, one more flag, or the next batch. */
  lemma Words(s: Sys, c: nat, step: Step)
    requires Inv(s) && Enabled(s, c, step)
    ensures var s' := Apply(s, c, step);
            && |s'.cpus| == |s.cpus| && (forall k | 0 <= k < |s.cpus| && k != c :: s'.cpus[k] == s.cpus[k])
            && if step == Run && s.cpus[c].pc.Store? then
                 s'.Batch() == s.Batch() + 1 && s'.state % 4 == 0 && s'.waiting != {}
               else
                 && s'.Batch() == s.Batch() && s'.waiting <= s.waiting
                 && (Has(s.state, Cmp) ==> Has(s'.state, Cmp)) && (Has(s.state, Pnd) ==> Has(s'.state, Pnd))
  {
    hide ListInv, BatchInv;
    At(s, c);
    if step == Run && s.cpus[c].pc.Swap? && s.state == s.cpus[c].pc.v { FlagBits(s.state, s.cpus[c].pc.flag); }
    assert 0 in All(|s.cpus|);
  }

  lemma ReportedStep(s: Sys, c: nat, step: Step)
    requires Live(s) && Enabled(s, c, step)
    ensures Reported(Apply(s, c, step))
  {
    hide Live, ListInv, BatchInv, Asked;
    LiveParts(s);
    var s' := Apply(s, c, step);
    At(s, c);
    Words(s, c, step);
    var pc := s.cpus[c].pc;
    if s'.waiting == {} && !s'.Completed() {
      if step == Run && pc == Sub {
        SubStep(s, c);
        LastOne(s.waiting, c);
        assert Completing(s'.cpus[c].pc);
      } else {
        SameWaiting(s, c, step);
        var k :| 0 <= k < |s.cpus| && Completing(s.cpus[k].pc);
        if k == c {
          ReporterCurrent(s, c);
          assert Completing(s'.cpus[c].pc);
        } else {
          assert Completing(s'.cpus[k].pc);
        }
      }
    }
  }

  lemma LiveParts(s: Sys)
    requires Live(s)
    ensures Inv(s) && Reported(s) && Started(s)
  {
  }

  lemma SameWaiting(s: Sys, c: nat, step: Step)
    requires Enabled(s, c, step) && !(step == Run && (s.cpus[c].pc == Sub || s.cpus[c].pc.Store?))
    ensures Apply(s, c, step).waiting == s.waiting
  {
  }

  lemma LastOne(waiting: set<nat>, c: nat)
    requires waiting - {c} == {} && |waiting| > 0
    ensures |waiting| == 1
  {
    assert forall x | x in waiting :: x == c || x in waiting - {c};
    assert waiting == {c};
  }

  lemma StartedStep(s: Sys, c: nat, step: Step)
    requires Live(s) && Enabled(s, c, step)
    ensures Started(Apply(s, c, step))
  {
    hide Live, ListInv, BatchInv, Asked;
    LiveParts(s);
    var s' := Apply(s, c, step);
    At(s, c);
    Words(s, c, step);
    if s'.state % 4 == 3 {
      if step == Run && s.cpus[c].pc.Swap? && s.state == s.cpus[c].pc.v {
        FlagBits(s.state, s.cpus[c].pc.flag);
        assert Starting(s'.cpus[c].pc);
      } else {
        var k :| 0 <= k < |s.cpus| && Starting(s.cpus[k].pc);
        assert Starting(s'.cpus[k].pc);
      }
    }
  }

  lemma AskedStep(s: Sys, c: nat, step: Step, k: nat)
    requires Live(s) && Enabled(s, c, step) && k < |s.cpus|
    ensures k < |Apply(s, c, step).cpus| && Asked(Apply(s, c, step), k)
  {
    hide Live, Inv, Apply;
    LiveParts(s);
    Words(s, c, step);
    AskedAt(s, k);
    Bound(s, k);
    if k == c { AskedOwn(s, c, step); }
  }

  /** Elements wait for the next batch at most. */
  lemma Bound(s: Sys, k: nat)
    requires Inv(s) && k < |s.cpus|
    ensures s.cpus[k].lBatch <= s.Batch() && (s.cpus[k].curr != [] ==> s.cpus[k].cBatch <= s.Batch() + 1)
  {
    hide QuietSince;
    At(s, k);
  }

  lemma AskedOwn(s: Sys, c: nat, step: Step)
    requires Inv(s) && Enabled(s, c, step) && Asked(s, c)
    ensures c < |Apply(s, c, step).cpus| && Asked(Apply(s, c, step), c)
  {
    hide Inv, QuietSince;
    At(s, c);
    if step == Run && s.cpus[c].pc.Swap? && s.state == s.cpus[c].pc.v { FlagBits(s.state, s.cpus[c].pc.flag); }
  }

  lemma AskedAt(s: Sys, k: nat)
    requires Live(s) && k < |s.cpus|
    ensures Asked(s, k)
  {
  }

  /** Every step of every CPU keeps the protocol going. */
  lemma LiveStep(s: Sys, c: nat, step: Step)
    requires Live(s) && Enabled(s, c, step)
    ensures Live(Apply(s, c, step))
  {
    hide Inv, Reported, Started, Asked;
    InvStep(s, c, step);
    ReportedStep(s, c, step);
    StartedStep(s, c, step);
    SameNumber(s, c, step);
    forall k | 0 <= k < |Apply(s, c, step).cpus| ensures Asked(Apply(s, c, step), k) { AskedStep(s, c, step, k); }
  }

  lemma SameNumber(s: Sys, c: nat, step: Step)
    requires Enabled(s, c, step)
    ensures |Apply(s, c, step).cpus| == |s.cpus|
  {
  }

  // ------------------------------------------------------ running without a pause

  /** How many steps the CPU has to go, at most. */
  function Rank(s: Sys, c: nat, pc: Pc): nat
    requires c < |s.cpus|
    decreases pc
  {
    var cpu := s.cpus[c];
    match pc
    case Idle => 0
    case Invoke => 1 + |cpu.done|
    case Refill => 7 + |cpu.done|
    case Finish => 8 + |cpu.done| + |cpu.curr|
    case Note => 9 + |cpu.done| + |cpu.curr|
    case Sub => 6
    case Start(_, back) => Rank(s, c, back) + 5
    case Swap(_, v, back) => Rank(s, c, back) + if v == s.state then 4 else 6
    case Reset(back) => Rank(s, c, back) + 3
    case Load(back) => Rank(s, c, back) + 2
    case Store(_, back) => Rank(s, c, back) + 1
  }

  /** Places that `start_batch` returns to. */
  predicate Home(pc: Pc) {
    match pc
    case Start(_, back) => back == Invoke || back == Idle
    case Swap(_, _, back) => back == Invoke || back == Idle
    case Reset(back) => back == Invoke || back == Idle
    case Load(back) => back == Invoke || back == Idle
    case Store(_, back) => back == Invoke || back == Idle
    case _ => true
  }

  lemma RankDown(s: Sys, c: nat)
    requires c < |s.cpus| && s.cpus[c].pc != Idle && Home(s.cpus[c].pc)
    ensures |Advance(s, c).cpus| == |s.cpus| && Home(Advance(s, c).cpus[c].pc)
    ensures Rank(Advance(s, c), c, Advance(s, c).cpus[c].pc) < Rank(s, c, s.cpus[c].pc)
    ensures forall k | 0 <= k < |s.cpus| && k != c :: Advance(s, c).cpus[k] == s.cpus[k]
  {
    var pc := s.cpus[c].pc;
    if pc.Start? || pc.Swap? || pc.Reset? || pc.Load? || pc.Store? { StartDown(s, c); } else { CallDown(s, c); }
  }

  lemma StartDown(s: Sys, c: nat)
    requires c < |s.cpus| && Home(s.cpus[c].pc)
    requires var pc := s.cpus[c].pc; pc.Start? || pc.Swap? || pc.Reset? || pc.Load? || pc.Store?
    ensures |Advance(s, c).cpus| == |s.cpus| && Home(Advance(s, c).cpus[c].pc)
    ensures Rank(Advance(s, c), c, Advance(s, c).cpus[c].pc) < Rank(s, c, s.cpus[c].pc)
    ensures forall k | 0 <= k < |s.cpus| && k != c :: Advance(s, c).cpus[k] == s.cpus[k]
  {
    hide Has, Raise;
  }

  lemma CallDown(s: Sys, c: nat)
    requires c < |s.cpus| && s.cpus[c].pc in {Note, Finish, Refill, Invoke, Sub}
    ensures |Advance(s, c).cpus| == |s.cpus| && Home(Advance(s, c).cpus[c].pc)
    ensures Rank(Advance(s, c), c, Advance(s, c).cpus[c].pc) < Rank(s, c, s.cpus[c].pc)
    ensures forall k | 0 <= k < |s.cpus| && k != c :: Advance(s, c).cpus[k] == s.cpus[k]
  {
    hide Has, Complete;
  }

  /** CPU `c` runs, alone, until it has finished its call. */
  ghost function Settle(s: Sys, c: nat): (t: Sys)
    requires c < |s.cpus| && Home(s.cpus[c].pc)
    ensures |t.cpus| == |s.cpus| && t.cpus[c].pc == Idle
    ensures forall k | 0 <= k < |s.cpus| && k != c :: t.cpus[k] == s.cpus[k]
    decreases Rank(s, c, s.cpus[c].pc)
  {
    if s.cpus[c].pc == Idle then s
    else RankDown(s, c); Settle(Advance(s, c), c)
  }

  lemma HomeOf(s: Sys, k: nat)
    requires Inv(s) && k < |s.cpus|
    ensures Home(s.cpus[k].pc)
  {
    hide ListInv, BatchInv;
    At(s, k);
  }

  /** Batches and flags only move forward, and within a batch ever fewer CPUs are waited for. */
  ghost predicate Forward(s: Sys, t: Sys) {
    && |t.cpus| == |s.cpus| && s.Batch() <= t.Batch()
    && (t.Batch() == s.Batch() ==>
          && t.waiting <= s.waiting
          && (Has(s.state, Cmp) ==> Has(t.state, Cmp)) && (Has(s.state, Pnd) ==> Has(t.state, Pnd)))
  }

  lemma ForwardTrans(s: Sys, t: Sys, u: Sys)
    requires Forward(s, t) && Forward(t, u)
    ensures Forward(s, u)
  {
  }

  lemma StepForward(s: Sys, c: nat, step: Step)
    requires Live(s) && Enabled(s, c, step)
    ensures Live(Apply(s, c, step)) && Forward(s, Apply(s, c, step))
  {
    hide Live, Apply, Inv;
    LiveParts(s);
    LiveStep(s, c, step);
    Words(s, c, step);
  }

  lemma {:induction false} SettleLive(s: Sys, c: nat)
    requires Live(s) && c < |s.cpus| && Home(s.cpus[c].pc)
    ensures Live(Settle(s, c)) && Forward(s, Settle(s, c))
    decreases Rank(s, c, s.cpus[c].pc)
  {
    hide Live, Forward, Advance, Home, Rank;
    if s.cpus[c].pc == Idle {
      ForwardSame(s);
    } else {
      RankDown(s, c);
      StepForward(s, c, Run);
      SettleLive(Advance(s, c), c);
      ForwardTrans(s, Advance(s, c), Settle(s, c));
    }
  }

  lemma ForwardSame(s: Sys)
    ensures Forward(s, s)
  {
  }

  lemma SettleOnce(s: Sys, c: nat)
    requires c < |s.cpus| && Home(s.cpus[c].pc) && s.cpus[c].pc != Idle
    ensures |Advance(s, c).cpus| == |s.cpus| && Home(Advance(s, c).cpus[c].pc)
    ensures Settle(s, c) == Settle(Advance(s, c), c)
  {
    hide Advance, Home, Rank;
    RankDown(s, c);
  }

  /** At `back`, or in the part of `start_batch` that returns there. */
  predicate Towards(pc: Pc, back: Pc) {
    match pc
    case Start(_, b) => b == back
    case Swap(_, _, b) => b == back
    case Reset(b) => b == back
    case Load(b) => b == back
    case Store(_, b) => b == back
    case _ => pc == back
  }

  /** What the last part of a call leaves alone, and the callbacks it runs. */
  predicate TailFacts(cpu: Cpu, cpu': Cpu, back: Pc) {
    && cpu'.curr == cpu.curr && cpu'.next == cpu.next && cpu'.cBatch == cpu.cBatch && cpu'.lBatch == cpu.lBatch
    && cpu'.hazard == cpu.hazard
    && (if back == Invoke then cpu'.ran + cpu'.done == cpu.ran + cpu.done
        else cpu'.ran == cpu.ran && cpu'.done == cpu.done)
  }

  lemma TailStep(s: Sys, c: nat, back: Pc)
    requires c < |s.cpus| && (back == Invoke || back == Idle) && Towards(s.cpus[c].pc, back) && s.cpus[c].pc != Idle
    ensures Home(s.cpus[c].pc) && |Advance(s, c).cpus| == |s.cpus|
    ensures TailFacts(s.cpus[c], Advance(s, c).cpus[c], back)
    ensures Towards(Advance(s, c).cpus[c].pc, back)
            || (Advance(s, c).cpus[c].pc == Idle && Advance(s, c).cpus[c].done == [])
  {
    hide Has, Raise, All;
    var cpu := s.cpus[c];
    if cpu.pc == Invoke && cpu.done != [] { assert cpu.ran + [cpu.done[0]] + cpu.done[1..] == cpu.ran + cpu.done; }
  }

  /** The last part of a call: lists and batch numbers stay, and the callbacks of `done` run. */
  lemma {:induction false} SettleTail(s: Sys, c: nat, back: Pc)
    requires c < |s.cpus| && (back == Invoke || back == Idle) && Towards(s.cpus[c].pc, back)
    ensures Home(s.cpus[c].pc) && TailFacts(s.cpus[c], Settle(s, c).cpus[c], back)
    ensures back == Invoke ==> Settle(s, c).cpus[c].done == []
    decreases Rank(s, c, s.cpus[c].pc)
  {
    hide Advance, Rank;
    if s.cpus[c].pc != Idle {
      TailStep(s, c, back);
      SettleOnce(s, c);
      RankDown(s, c);
      var t := Advance(s, c);
      if t.cpus[c].pc != Idle { SettleTail(t, c, back); }
    }
  }

  // -------------------------------------------------------------- turns and rounds

  /** CPU `c`, idle so far, updates and then answers its hazard if it is raised. */
  ghost function Turn(s: Sys, c: nat): (t: Sys)
    requires c < |s.cpus| && s.cpus[c].pc == Idle
    ensures |t.cpus| == |s.cpus| && t.cpus[c].pc == Idle
    ensures forall k | 0 <= k < |s.cpus| && k != c :: t.cpus[k] == s.cpus[k]
  {
    var u := Settle(Apply(s, c, BeginUpdate), c);
    if u.cpus[c].hazard then Settle(Apply(u, c, BeginQuiet), c) else u
  }

  /**
   The lists of a CPU after its turn: a completed `curr` has run, and `next` takes its place as soon as it is
   empty.
   */
  predicate Moved(s: Sys, cpu: Cpu, cpu': Cpu) {
    var ready := cpu.curr != [] && Complete(s.state, cpu.cBatch);
    && cpu'.ran == cpu.ran + cpu.done + (if ready then cpu.curr else [])
    && (if ready || cpu.curr == [] then cpu'.curr == cpu.next && cpu'.next == []
        else cpu'.curr == cpu.curr && cpu'.cBatch == cpu.cBatch && cpu'.next == cpu.next)
  }

  predicate Updated(s: Sys, cpu: Cpu, cpu': Cpu) {
    cpu'.done == [] && cpu'.lBatch == s.Batch() && Moved(s, cpu, cpu')
  }

  lemma UpdateTurn(s: Sys, c: nat)
    requires c < |s.cpus| && s.cpus[c].pc == Idle
    ensures Updated(s, s.cpus[c], Settle(Apply(s, c, BeginUpdate), c).cpus[c])
  {
    hide Settle, Has, All, Rank;
    var cpu, s1 := s.cpus[c], Apply(s, c, BeginUpdate);
    var s2 := if s1.cpus[c].pc == Note then Advance(s1, c) else s1;
    if s1.cpus[c].pc == Note { SettleOnce(s1, c); }
    assert s2.cpus[c].pc == Finish && s2.state == s.state && s2.cpus[c].lBatch == s.Batch();
    assert s2.cpus[c].ran == cpu.ran && s2.cpus[c].done == cpu.done && s2.cpus[c].curr == cpu.curr;
    assert s2.cpus[c].next == cpu.next && s2.cpus[c].cBatch == cpu.cBatch;
    RefillTurn(s2, c);
  }

  lemma RefillTurn(s: Sys, c: nat)
    requires c < |s.cpus| && s.cpus[c].pc == Finish && s.cpus[c].lBatch == s.Batch()
    ensures Updated(s, s.cpus[c], Settle(s, c).cpus[c])
  {
    hide Settle, Has, All, Complete, Rank;
    var cpu, s3 := s.cpus[c], Advance(s, c);
    SettleOnce(s, c);
    SettleOnce(s3, c);
    var s4 := Advance(s3, c);
    assert Towards(s4.cpus[c].pc, Invoke);
    SettleTail(s4, c, Invoke);
    if cpu.curr != [] && Complete(s.state, cpu.cBatch) {
      assert cpu.ran + (cpu.done + cpu.curr) == cpu.ran + cpu.done + cpu.curr;
    } else {
      assert cpu.ran + cpu.done + [] == cpu.ran + cpu.done;
    }
  }

  lemma QuietTurn(s: Sys, c: nat)
    requires Live(s) && c < |s.cpus| && s.cpus[c].pc == Idle && s.cpus[c].hazard
    ensures var t, cpu := Settle(Apply(s, c, BeginQuiet), c), s.cpus[c];
            && Live(t) && Forward(s, t) && (t.Batch() == s.Batch() ==> c !in t.waiting)
            && t.cpus[c].curr == cpu.curr && t.cpus[c].next == cpu.next && t.cpus[c].cBatch == cpu.cBatch
            && t.cpus[c].ran == cpu.ran && t.cpus[c].done == cpu.done
  {
    hide Settle, Live, Has, All, Rank;
    var s1 := Apply(s, c, BeginQuiet);
    StepForward(s, c, BeginQuiet);
    StepForward(s1, c, Run);
    var s2 := Advance(s1, c);
    SettleOnce(s1, c);
    assert c !in s2.waiting && s2.Batch() == s.Batch() && Towards(s2.cpus[c].pc, Idle);
    SettleTail(s2, c, Idle);
    SettleLive(s2, c);
    ForwardTrans(s, s1, s2);
    ForwardTrans(s, s2, Settle(s2, c));
  }

  /** A turn goes forward, its CPU is no longer waited for in the batch, and its lists move on. */
  lemma TurnFacts(s: Sys, c: nat)
    requires Live(s) && c < |s.cpus| && s.cpus[c].pc == Idle
    ensures var t := Turn(s, c);
            && Live(t) && Forward(s, t) && (t.Batch() == s.Batch() ==> c !in t.waiting)
            && Moved(s, s.cpus[c], t.cpus[c])
  {
    hide Settle, Live, Rank, Complete, Apply;
    StepForward(s, c, BeginUpdate);
    var s1 := Apply(s, c, BeginUpdate);
    Begun(s, c);
    var u := Settle(s1, c);
    SettleLive(s1, c);
    UpdateTurn(s, c);
    ForwardTrans(s, s1, u);
    LiveParts(u);
    if u.cpus[c].hazard {
      QuietTurn(u, c);
      ForwardTrans(s, u, Turn(s, c));
    } else if u.Batch() == s.Batch() {
      NotWaited(u, c);
    }
  }

  lemma Begun(s: Sys, c: nat)
    requires c < |s.cpus| && s.cpus[c].pc == Idle
    ensures |Apply(s, c, BeginUpdate).cpus| == |s.cpus| && Home(Apply(s, c, BeginUpdate).cpus[c].pc)
  {
  }

  /** An idle CPU that knows the batch and has no hazard is not waited for. */
  lemma NotWaited(s: Sys, c: nat)
    requires Inv(s) && c < |s.cpus| && s.cpus[c].pc == Idle && !s.cpus[c].hazard && s.cpus[c].lBatch == s.Batch()
    ensures c !in s.waiting
  {
    hide ListInv, PcInv;
    At(s, c);
  }

  ghost predicate AllIdle(s: Sys) {
    forall k | 0 <= k < |s.cpus| :: s.cpus[k].pc == Idle
  }

  /** The CPUs `0 .. k` take their turns. */
  ghost function Turns(s: Sys, k: nat): (t: Sys)
    requires AllIdle(s) && k <= |s.cpus|
    ensures |t.cpus| == |s.cpus| && AllIdle(t)
    ensures forall j | k <= j < |s.cpus| :: t.cpus[j] == s.cpus[j]
  {
    if k == 0 then s else Turn(Turns(s, k - 1), k - 1)
  }

  ghost function Rounds(s: Sys, n: nat): (t: Sys)
    requires AllIdle(s)
    ensures |t.cpus| == |s.cpus| && AllIdle(t)
  {
    if n == 0 then s else var u := Rounds(s, n - 1); Turns(u, |u.cpus|)
  }

  lemma {:induction false} TurnsFacts(s: Sys, k: nat)
    requires Live(s) && AllIdle(s) && k <= |s.cpus|
    ensures var t := Turns(s, k);
            && Live(t) && Forward(s, t) && (t.Batch() == s.Batch() ==> forall j | 0 <= j < k :: j !in t.waiting)
  {
    hide Live, Turn;
    if k == 0 {
      ForwardSame(s);
    } else {
      TurnsFacts(s, k - 1);
      TurnFacts(Turns(s, k - 1), k - 1);
      ForwardTrans(s, Turns(s, k - 1), Turns(s, k));
    }
  }

  /** A CPU's lists change in its own turn only. */
  lemma {:induction false} TurnsKeep(s: Sys, c: nat, k: nat)
    requires AllIdle(s) && c < k <= |s.cpus|
    ensures Turns(s, k).cpus[c] == Turns(s, c + 1).cpus[c]
  {
    hide Turn;
    if c + 1 < k { TurnsKeep(s, c, k - 1); }
  }

  /** After a round in the same batch, the batch is complete. */
  lemma RoundReports(s: Sys)
    requires Live(s) && AllIdle(s)
    ensures var t := Turns(s, |s.cpus|); Live(t) && Forward(s, t) && (t.Batch() == s.Batch() ==> t.Completed())
  {
    hide Live, Turns;
    TurnsFacts(s, |s.cpus|);
    var t := Turns(s, |s.cpus|);
    LiveParts(t);
    if t.Batch() == s.Batch() { NobodyLeft(t); }
  }

  lemma NobodyLeft(s: Sys)
    requires Inv(s) && Reported(s) && AllIdle(s) && forall j | 0 <= j < |s.cpus| :: j !in s.waiting
    ensures s.Completed()
  {
    hide CpuInv;
    assert s.waiting == {};
  }

  /** What a round does to the lists of CPU `c`. */
  lemma RoundMoves(s: Sys, c: nat)
    requires Live(s) && AllIdle(s) && c < |s.cpus|
    ensures exists u :: Forward(s, u) && Moved(u, s.cpus[c], Turns(s, |s.cpus|).cpus[c])
  {
    hide Live, Turn, Forward, Moved;
    var u := Turns(s, c);
    TurnsFacts(s, c);
    TurnFacts(u, c);
    TurnsKeep(s, c, |s.cpus|);
    assert Forward(s, u) && Moved(u, s.cpus[c], Turns(s, |s.cpus|).cpus[c]);
  }

  // ------------------------------------------------------------- every callback

  /** `complete` in words: a later batch has begun, or this one is complete. */
  lemma CompleteIs(state: nat, b: nat)
    ensures Complete(state, b) <==> state / 4 > b || (state / 4 == b && Has(state, Cmp))
  {
  }

  lemma StaysComplete(s: Sys, t: Sys, b: nat)
    requires Forward(s, t) && Complete(s.state, b)
    ensures Complete(t.state, b)
  {
    hide Complete, Has;
    CompleteIs(s.state, b);
    CompleteIs(t.state, b);
  }

  /** How far an element has come after a round. */
  lemma RoundElem(s: Sys, c: nat, e: Elem)
    requires Live(s) && AllIdle(s) && c < |s.cpus|
    ensures var cpu, cpu' := s.cpus[c], Turns(s, |s.cpus|).cpus[c];
            && (e in cpu.ran || e in cpu.done ==> e in cpu'.ran)
            && (e in cpu.curr ==>
                e in cpu'.ran || (cpu'.curr == cpu.curr && cpu'.cBatch == cpu.cBatch && cpu'.next == cpu.next))
            && (e in cpu.curr && Complete(s.state, cpu.cBatch) ==> e in cpu'.ran)
            && (e in cpu.next ==> e in cpu'.curr || (cpu.curr != [] && cpu'.curr == cpu.curr
                                                     && cpu'.cBatch == cpu.cBatch && cpu'.next == cpu.next))
            && (e in cpu.next && Complete(s.state, cpu.cBatch) ==> e in cpu'.curr)
  {
    hide Live, Turns, Complete, Forward;
    RoundMoves(s, c);
    var u :| Forward(s, u) && Moved(u, s.cpus[c], Turns(s, |s.cpus|).cpus[c]);
    if Complete(s.state, s.cpus[c].cBatch) { StaysComplete(s, u, s.cpus[c].cBatch); }
  }

  /** One round brings the batch of `curr` into being. */
  lemma BatchComes(s: Sys, c: nat)
    requires Live(s) && AllIdle(s) && c < |s.cpus| && s.cpus[c].curr != []
    ensures s.cpus[c].cBatch <= Turns(s, |s.cpus|).Batch()
  {
    hide Turns, Inv;
    var t := Turns(s, |s.cpus|);
    RoundReports(s);
    Bound(s, c);
    AskedAt(s, c);
    OneFlag(t);
  }

  /** While all are idle, at most one flag is set. */
  lemma OneFlag(s: Sys)
    requires Started(s) && AllIdle(s)
    ensures !(Has(s.state, Cmp) && Has(s.state, Pnd))
  {
  }

  /** And the next completes it. */
  lemma BatchEnds(s: Sys, b: nat)
    requires Live(s) && AllIdle(s) && b <= s.Batch()
    ensures Complete(Turns(s, |s.cpus|).state, b)
  {
    hide Live, Turns, Complete, Has;
    RoundReports(s);
    CompleteIs(Turns(s, |s.cpus|).state, b);
  }

  lemma {:induction false} RoundsLive(s: Sys, n: nat)
    requires Live(s) && AllIdle(s)
    ensures Live(Rounds(s, n))
  {
    hide Live, Turns;
    if n > 0 {
      RoundsLive(s, n - 1);
      RoundReports(Rounds(s, n - 1));
    }
  }

  /** In three rounds `curr` has run, and `next` has taken its place. */
  lemma ThreeRounds(s: Sys, c: nat, e: Elem)
    requires Live(s) && AllIdle(s) && c < |s.cpus|
    ensures var cpu, cpu' := s.cpus[c], Rounds(s, 3).cpus[c];
            && (e in cpu.ran || e in cpu.done || e in cpu.curr ==> e in cpu'.ran)
            && (e in cpu.next ==> e in cpu'.curr || e in cpu'.ran)
  {
    hide Live, Turns, Complete;
    var n := |s.cpus|;
    var s1 := Turns(s, n);
    var s2 := Turns(s1, n);
    var s3 := Turns(s2, n);
    RoundReports(s);
    RoundReports(s1);
    assert Rounds(s, 0) == s && Rounds(s, 1) == s1 && Rounds(s, 2) == s2 && Rounds(s, 3) == s3;
    RoundElem(s, c, e);
    RoundElem(s1, c, e);
    RoundElem(s2, c, e);
    if s.cpus[c].curr != [] {
      BatchComes(s, c);
      BatchEnds(s1, s.cpus[c].cBatch);
    }
  }

  /** All CPUs finish what they are doing. */
  ghost function SettleAll(s: Sys, k: nat): (t: Sys)
    requires k <= |s.cpus| && forall j | 0 <= j < |s.cpus| :: Home(s.cpus[j].pc)
    ensures |t.cpus| == |s.cpus| && (forall j | 0 <= j < k :: t.cpus[j].pc == Idle)
    ensures forall j | k <= j < |s.cpus| :: t.cpus[j] == s.cpus[j]
  {
    if k == 0 then s else Settle(SettleAll(s, k - 1), k - 1)
  }

  // ------------------------------------------------------------- as a continuation

  /** The moves `ms` lead from `s` to `t`. */
  ghost predicate Leads(s: Sys, ms: seq<Move>, t: Sys)
    decreases |ms|
  {
    if ms == [] then t == s
    else Enabled(s, ms[0].cpu, ms[0].step) && Leads(Apply(s, ms[0].cpu, ms[0].step), ms[1..], t)
  }

  lemma {:induction false} LeadsOn(s: Sys, a: seq<Move>, t: Sys, b: seq<Move>, u: Sys)
    requires Leads(s, a, t) && Leads(t, b, u)
    ensures Leads(s, a + b, u)
    decreases |a|
  {
    hide Apply, Enabled;
    if a == [] {
      assert a + b == b;
    } else {
      assert (a + b)[0] == a[0] && (a + b)[1..] == a[1..] + b;
      LeadsOn(Apply(s, a[0].cpu, a[0].step), a[1..], t, b, u);
    }
  }

  ghost predicate NoCalls(ms: seq<Move>) {
    forall i | 0 <= i < |ms| :: !ms[i].step.Call?
  }

  /** `t` can be reached from `s` without a further call of `Rcu::call`. */
  ghost predicate Reaches(s: Sys, t: Sys) {
    exists ms :: NoCalls(ms) && Leads(s, ms, t)
  }

  lemma ReachesOn(s: Sys, t: Sys, u: Sys)
    requires Reaches(s, t) && Reaches(t, u)
    ensures Reaches(s, u)
  {
    hide Leads;
    var a :| NoCalls(a) && Leads(s, a, t);
    var b :| NoCalls(b) && Leads(t, b, u);
    LeadsOn(s, a, t, b, u);
    assert NoCalls(a + b);
  }

  lemma ReachesOne(s: Sys, c: nat, step: Step)
    requires Enabled(s, c, step) && !step.Call?
    ensures Reaches(s, Apply(s, c, step))
  {
    hide Apply, Enabled;
    var ms := [Move(c, step)];
    assert ms[1..] == [];
    assert NoCalls(ms) && Leads(s, ms, Apply(s, c, step));
  }

  lemma ReachesSame(s: Sys)
    ensures Reaches(s, s)
  {
    assert NoCalls([]) && Leads(s, [], s);
  }

  lemma {:induction false} SettleReaches(s: Sys, c: nat)
    requires c < |s.cpus| && Home(s.cpus[c].pc)
    ensures Reaches(s, Settle(s, c))
    decreases Rank(s, c, s.cpus[c].pc)
  {
    hide Reaches, Advance, Home, Rank;
    if s.cpus[c].pc == Idle {
      ReachesSame(s);
    } else {
      RankDown(s, c);
      ReachesOne(s, c, Run);
      SettleReaches(Advance(s, c), c);
      ReachesOn(s, Advance(s, c), Settle(s, c));
    }
  }

  lemma TurnReaches(s: Sys, c: nat)
    requires c < |s.cpus| && s.cpus[c].pc == Idle
    ensures Reaches(s, Turn(s, c))
  {
    hide Reaches, Settle;
    var s1 := Apply(s, c, BeginUpdate);
    ReachesOne(s, c, BeginUpdate);
    SettleReaches(s1, c);
    var u := Settle(s1, c);
    ReachesOn(s, s1, u);
    if u.cpus[c].hazard {
      var u1 := Apply(u, c, BeginQuiet);
      ReachesOne(u, c, BeginQuiet);
      SettleReaches(u1, c);
      ReachesOn(u, u1, Turn(s, c));
      ReachesOn(s, u, Turn(s, c));
    }
  }

  lemma {:induction false} TurnsReach(s: Sys, k: nat)
    requires AllIdle(s) && k <= |s.cpus|
    ensures Reaches(s, Turns(s, k))
  {
    hide Reaches, Turn;
    if k == 0 {
      ReachesSame(s);
    } else {
      TurnsReach(s, k - 1);
      TurnReaches(Turns(s, k - 1), k - 1);
      ReachesOn(s, Turns(s, k - 1), Turns(s, k));
    }
  }

  lemma {:induction false} RoundsReach(s: Sys, n: nat)
    requires AllIdle(s)
    ensures Reaches(s, Rounds(s, n))
  {
    hide Reaches, Turns;
    if n == 0 {
      ReachesSame(s);
    } else {
      var u := Rounds(s, n - 1);
      RoundsReach(s, n - 1);
      TurnsReach(u, |u.cpus|);
      ReachesOn(s, u, Rounds(s, n));
    }
  }

  lemma {:induction false} SettleLog(s: Sys, c: nat)
    requires c < |s.cpus| && Home(s.cpus[c].pc)
    ensures Settle(s, c).cpus[c].log == s.cpus[c].log
    decreases Rank(s, c, s.cpus[c].pc)
  {
    hide Home, Rank;
    if s.cpus[c].pc != Idle {
      RankDown(s, c);
      SettleLog(Advance(s, c), c);
    }
  }

  lemma {:induction false} SettleAllFacts(s: Sys, k: nat)
    requires Live(s) && k <= |s.cpus| && forall j | 0 <= j < |s.cpus| :: Home(s.cpus[j].pc)
    ensures var t := SettleAll(s, k);
            Live(t) && Reaches(s, t) && forall j | 0 <= j < |s.cpus| :: t.cpus[j].log == s.cpus[j].log
  {
    hide Live, Reaches, Settle, Home;
    if k == 0 {
      ReachesSame(s);
    } else {
      var u := SettleAll(s, k - 1);
      SettleAllFacts(s, k - 1);
      SettleLive(u, k - 1);
      SettleReaches(u, k - 1);
      SettleLog(u, k - 1);
      ReachesOn(s, u, SettleAll(s, k));
    }
  }

  lemma {:induction false} RoundsAdd(s: Sys, m: nat, n: nat)
    requires AllIdle(s)
    ensures Rounds(Rounds(s, m), n) == Rounds(s, m + n)
  {
    hide Turns;
    if n > 0 { RoundsAdd(s, m, n - 1); }
  }

  /** All CPUs finish their calls, then each takes its turn six times. */
  ghost function Continued(s: Sys): (t: Sys)
    requires forall j | 0 <= j < |s.cpus| :: Home(s.cpus[j].pc)
    ensures |t.cpus| == |s.cpus|
  {
    Rounds(SettleAll(s, |s.cpus|), 6)
  }

  /** Then every element that was queued has run. */
  lemma Continues(s: Sys, c: nat, e: Elem)
    requires Live(s) && c < |s.cpus| && e in InLists(s.cpus[c])
    ensures forall j | 0 <= j < |s.cpus| :: Home(s.cpus[j].pc)
    ensures Reaches(s, Continued(s)) && e in Continued(s).cpus[c].ran
  {
    hide Live, Reaches, Home, SettleAll, Rounds;
    LiveParts(s);
    forall j | 0 <= j < |s.cpus| ensures Home(s.cpus[j].pc) { HomeOf(s, j); }
    var t := SettleAll(s, |s.cpus|);
    SettleAllFacts(s, |s.cpus|);
    LiveParts(t);
    Logged(s, c, e);
    Logged(t, c, e);
    RoundsReach(t, 6);
    ReachesOn(s, t, Continued(s));
    RoundsLive(t, 3);
    ThreeRounds(t, c, e);
    ThreeRounds(Rounds(t, 3), c, e);
    RoundsAdd(t, 3, 3);
  }

  lemma Logged(s: Sys, c: nat, e: Elem)
    requires Inv(s) && c < |s.cpus|
    ensures var cpu := s.cpus[c]; e in cpu.log <==> e in cpu.ran || e in cpu.done || e in cpu.curr || e in cpu.next
    ensures e in InLists(s.cpus[c]) ==> e in s.cpus[c].log
  {
    hide PcInv, BatchInv, QuietSince;
    At(s, c);
  }

  lemma {:induction false} RunLive(states: seq<Sys>, moves: seq<Move>, i: nat)
    requires IsRun(states, moves) && i < |states|
    ensures Live(states[i])
    decreases i
  {
    hide Live, Init, Apply, Enabled;
    if i == 0 {
      InitLive(states[0]);
    } else {
      RunLive(states, moves, i - 1);
      LiveStep(states[i - 1], moves[i - 1].cpu, moves[i - 1].step);
    }
  }

  /** In every run: when nobody is waited for and nobody is at work on it, the batch has been reported complete. */
  lemma CompletionReported(states: seq<Sys>, moves: seq<Move>, i: nat)
    requires IsRun(states, moves) && i < |states| && states[i].waiting == {}
    requires forall k | 0 <= k < |states[i].cpus| ::
               !Completing(states[i].cpus[k].pc) && !Starting(states[i].cpus[k].pc)
    ensures states[i].Completed() && !Has(states[i].state, Pnd)
  {
    hide Inv;
    RunLive(states, moves, i);
  }

  /** A run goes on by the moves that lead on from its end. */
  lemma {:induction false} RunOn(states: seq<Sys>, moves: seq<Move>, ms: seq<Move>, t: Sys) returns (states': seq<Sys>)
    requires IsRun(states, moves) && Leads(states[|moves|], ms, t)
    ensures IsRun(states', moves + ms) && states <= states' && states'[|moves + ms|] == t
    decreases |ms|
  {
    hide Init, Apply, Enabled;
    if ms == [] {
      assert moves + ms == moves;
      states' := states;
    } else {
      var s := Apply(states[|moves|], ms[0].cpu, ms[0].step);
      var more, longer := moves + [ms[0]], states + [s];
      forall i | 0 <= i < |more|
        ensures Enabled(longer[i], more[i].cpu, more[i].step)
                && longer[i + 1] == Apply(longer[i], more[i].cpu, more[i].step)
      {
        if i < |moves| { assert moves[i] == more[i]; }
      }
      states' := RunOn(longer, more, ms[1..], t);
      assert more + ms[1..] == moves + ms;
    }
  }

  /**
   Grace periods end: every run goes on, with no more than updates and answered hazards, to a state in which the
   callback of a given queued element has run.
   */
  lemma GracePeriodEnds(states: seq<Sys>, moves: seq<Move>, c: nat, e: Elem)
    returns (states': seq<Sys>, moves': seq<Move>)
    requires IsRun(states, moves) && c < |states[|moves|].cpus| && e in InLists(states[|moves|].cpus[c])
    ensures IsRun(states', moves') && states <= states' && moves <= moves'
    ensures forall i | |moves| <= i < |moves'| :: !moves'[i].step.Call?
    ensures c < |states'[|moves'|].cpus| && e in states'[|moves'|].cpus[c].ran
    ensures forall j | 0 <= j < |states[|moves|].cpus| :: Home(states[|moves|].cpus[j].pc)
    ensures states'[|moves'|] == Continued(states[|moves|])
  {
    hide IsRun, Live, Continued;
    RunSize(states, moves);
    var s := states[|moves|];
    RunLive(states, moves, |moves|);
    Continues(s, c, e);
    var ms :| NoCalls(ms) && Leads(s, ms, Continued(s));
    moves' := moves + ms;
    states' := RunOn(states, moves, ms, Continued(s));
    RunSize(states', moves');
  }

  lemma RunSize(states: seq<Sys>, moves: seq<Move>)
    requires IsRun(states, moves)
    ensures |states| == |moves| + 1
  {
  }

  /** So every call of `Rcu::call` for an element that is not queued leads to its callback. */
  lemma CallRuns(states: seq<Sys>, moves: seq<Move>, c: nat, e: Elem) returns (states': seq<Sys>, moves': seq<Move>)
    requires IsRun(states, moves) && Enabled(states[|moves|], c, Call(e)) && !Queued(states[|moves|], e.id)
    ensures IsRun(states', moves') && states <= states' && moves + [Move(c, Call(e))] <= moves'
    ensures c < |states'[|moves'|].cpus| && e in states'[|moves'|].cpus[c].ran
  {
    hide IsRun, Continued, Home, Queued;
    RunSize(states, moves);
    var s, call := states[|moves|], [Move(c, Call(e))];
    var s1 := Apply(s, c, Call(e));
    assert call[1..] == [];
    assert Leads(s, call, s1);
    var states1 := RunOn(states, moves, call, s1);
    assert s1.cpus[c].next == s.cpus[c].next + [e];
    assert e in InLists(s1.cpus[c]);
    states', moves' := GracePeriodEnds(states1, moves + call, c, e);
  }
}
