/** The spinlock: a ticket lock with 8-bit counters that wrap around, taken by any number of CPUs below 256. */
module TicketLock {
  import opened Rings

  /** Where a CPU stands: outside, spinning with a ticket, inside, or inside with the next value to serve in hand. */
  datatype Pc = Out | Waiting(ticket: nat) | Inside(ticket: nat) | Leaving(ticket: nat, value: nat)

  /** `queue` records who holds a ticket, in the order the tickets were drawn; the program does not have it. */
  datatype Lock = Lock(next: nat, served: nat, cpus: seq<Pc>, queue: seq<nat>)

  function Bump(t: nat): nat {
    (t + 1) % 256
  }

  /** The next atomic action of CPU `c`: draw a ticket, look at the ticket served, load it to leave, store it. */
  function Next(s: Lock, c: nat): Lock
    requires c < |s.cpus|
  {
    match s.cpus[c]
    case Out => Lock(Bump(s.next), s.served, s.cpus[c := Waiting(s.next)], s.queue + [c])
    case Waiting(t) => if s.served == t then s.(cpus := s.cpus[c := Inside(t)]) else s
    case Inside(t) => s.(cpus := s.cpus[c := Leaving(t, Bump(s.served))])
    case Leaving(t, v) => Lock(s.next, v, s.cpus[c := Out], if s.queue == [] then [] else s.queue[1..])
  }

  predicate Init(s: Lock) {
    && |s.cpus| < 256 && s.queue == [] && s.next < 256 && s.served == s.next
    && forall c | 0 <= c < |s.cpus| :: s.cpus[c] == Out
  }

  predicate In(p: Pc) {
    p.Inside? || p.Leaving?
  }

  ghost predicate QueueOk(s: Lock) {
    && |s.cpus| < 256 && NoDup(s.queue) && s.served < 256 && s.next == (s.served + |s.queue|) % 256
    && (forall k {:trigger s.queue[k]} | 0 <= k < |s.queue| :: s.queue[k] < |s.cpus|)
  }

  /** Ticket numbers count up from the one served; only the first in the queue may be inside. */
  ghost predicate PlaceOk(s: Lock, k: nat)
    requires k < |s.queue| && s.queue[k] < |s.cpus|
  {
    var p := s.cpus[s.queue[k]];
    && !p.Out? && p.ticket == (s.served + k) % 256
    && (In(p) ==> k == 0) && (p.Leaving? ==> p.value == Bump(s.served))
  }

  ghost predicate Inv(s: Lock) {
    && QueueOk(s)
    && (forall k {:trigger PlaceOk(s, k)} | 0 <= k < |s.queue| :: PlaceOk(s, k))
    && (forall c | 0 <= c < |s.cpus| && !s.cpus[c].Out? :: c in s.queue)
  }

  /** Distinct CPUs below 256 make a queue shorter than 256. */
  lemma {:induction false} ShortQueue(q: seq<nat>, n: nat)
    requires NoDup(q) && forall k | 0 <= k < |q| :: q[k] < n
    ensures |q| <= n
  {
    assert q == [] || q[0] < n;
    if n > 0 {
      if k :| 0 <= k < |q| && q[k] == n - 1 {
        var r := Without(q, k);
        WithoutMembers(q, k);
        forall i | 0 <= i < |r| ensures r[i] < n - 1 { assert r[i] in r; }
        ShortQueue(r, n - 1);
      } else {
        ShortQueue(q, n - 1);
      }
    }
  }

  lemma SameTicket(served: nat, k: nat)
    requires served < 256 && k < 256
    ensures (served + k) % 256 == served <==> k == 0
  {
  }

  /** The one inside, or about to enter, is the first in the queue. */
  lemma FirstOnly(s: Lock, c: nat)
    requires Inv(s) && c < |s.cpus| && !s.cpus[c].Out? && (In(s.cpus[c]) || s.cpus[c].ticket == s.served)
    ensures s.queue != [] && s.queue[0] == c
  {
    var k :| 0 <= k < |s.queue| && s.queue[k] == c;
    assert PlaceOk(s, k);
    ShortQueue(s.queue, |s.cpus|);
    SameTicket(s.served, k);
  }

  lemma PlaceIs(s: Lock, k: nat)
    requires Inv(s) && k < |s.queue|
    ensures s.queue[k] < |s.cpus| && PlaceOk(s, k)
  {
  }

  lemma DrawInv(s: Lock, c: nat)
    requires Inv(s) && c < |s.cpus| && s.cpus[c].Out?
    ensures Inv(Next(s, c))
  {
    var s' := Next(s, c);
    if c in s.queue {
      var k :| 0 <= k < |s.queue| && s.queue[k] == c;
      PlaceIs(s, k);
    }
    forall k | 0 <= k < |s'.queue| ensures PlaceOk(s', k) {
      if k < |s.queue| {
        PlaceIs(s, k);
        assert s.queue[k] in s.queue;
      }
    }
    forall a | 0 <= a < |s'.cpus| && !s'.cpus[a].Out? ensures a in s'.queue {
      if a == c { assert s'.queue[|s.queue|] == c; }
    }
    assert (s.served + |s.queue| + 1) % 256 == ((s.served + |s.queue|) % 256 + 1) % 256;
  }

  /** Entering and loading change one CPU only. */
  lemma LocalInv(s: Lock, c: nat)
    requires Inv(s) && c < |s.cpus| && (s.cpus[c].Waiting? || s.cpus[c].Inside?)
    ensures Inv(Next(s, c))
  {
    var s' := Next(s, c);
    if s' != s {
      FirstOnly(s, c);
      forall k | 0 <= k < |s'.queue| ensures PlaceOk(s', k) { PlaceIs(s, k); }
    }
  }

  lemma Wrap(served: nat, k: nat)
    ensures (Bump(served) + k) % 256 == (served + (k + 1)) % 256
  {
  }

  lemma LeavePlace(s: Lock, c: nat, k: nat)
    requires Inv(s) && c < |s.cpus| && s.cpus[c].Leaving? && s.queue != [] && s.queue[0] == c && k + 1 < |s.queue|
    ensures var s' := Next(s, c); k < |s'.queue| && s'.queue[k] < |s'.cpus| && PlaceOk(s', k)
  {
    hide Bump;
    PlaceIs(s, 0);
    PlaceIs(s, k + 1);
    var s' := Next(s, c);
    assert s'.queue[k] == s.queue[k + 1] && s.queue[k + 1] != c;
    Wrap(s.served, k);
  }

  lemma LeaveInv(s: Lock, c: nat)
    requires Inv(s) && c < |s.cpus| && s.cpus[c].Leaving?
    ensures s.queue != [] && s.queue[0] == c && Inv(Next(s, c))
  {
    FirstOnly(s, c);
    PlaceIs(s, 0);
    var s' := Next(s, c);
    hide PlaceOk, Bump;
    forall k: nat | k < |s'.queue| ensures s'.queue[k] < |s'.cpus| && PlaceOk(s', k) { LeavePlace(s, c, k); }
    forall a | 0 <= a < |s'.cpus| && !s'.cpus[a].Out? ensures a in s'.queue {
      var k :| 0 <= k < |s.queue| && s.queue[k] == a;
      assert s'.queue[k - 1] == a;
    }
    Wrap(s.served, |s.queue| - 1);
    Bumped(s, c);
  }

  lemma Bumped(s: Lock, c: nat)
    requires Inv(s) && c < |s.cpus| && s.cpus[c].Leaving? && s.queue != [] && s.queue[0] == c
    ensures Next(s, c).served == Bump(s.served) && Bump(s.served) < 256
  {
    PlaceIs(s, 0);
  }

  lemma StepInv(s: Lock, c: nat)
    requires Inv(s) && c < |s.cpus|
    ensures Inv(Next(s, c))
  {
    if s.cpus[c].Out? { DrawInv(s, c); } else if s.cpus[c].Leaving? { LeaveInv(s, c); } else { LocalInv(s, c); }
  }

  // --------------------------------------------------------------------- runs

  ghost predicate IsRun(states: seq<Lock>, moves: seq<nat>) {
    && |states| == |moves| + 1 && Init(states[0])
    && forall i {:trigger moves[i]} | 0 <= i < |moves| ::
      moves[i] < |states[i].cpus| && states[i + 1] == Next(states[i], moves[i])
  }

  lemma {:induction false} RunInv(states: seq<Lock>, moves: seq<nat>, i: nat)
    requires IsRun(states, moves) && i < |states|
    ensures Inv(states[i])
  {
    if i > 0 {
      RunInv(states, moves, i - 1);
      StepInv(states[i - 1], moves[i - 1]);
    }
  }

  /** Never two CPUs inside. */
  lemma MutualExclusion(states: seq<Lock>, moves: seq<nat>, i: nat, a: nat, b: nat)
    requires IsRun(states, moves) && i < |states| && a < |states[i].cpus| && b < |states[i].cpus|
    requires In(states[i].cpus[a]) && In(states[i].cpus[b])
    ensures a == b
  {
    RunInv(states, moves, i);
    FirstOnly(states[i], a);
    FirstOnly(states[i], b);
  }

  /** The assertion in `unlock` holds: the lock is held. */
  lemma LockedAtUnlock(states: seq<Lock>, moves: seq<nat>, i: nat, c: nat)
    requires IsRun(states, moves) && i < |states| && c < |states[i].cpus| && In(states[i].cpus[c])
    ensures states[i].next != states[i].served
  {
    var s := states[i];
    RunInv(states, moves, i);
    FirstOnly(s, c);
    ShortQueue(s.queue, |s.cpus|);
    SameTicket(s.served, |s.queue|);
  }

  /** How many of the moves `i .. j` release the lock. */
  ghost function Unlocks(states: seq<Lock>, moves: seq<nat>, i: nat, j: nat): nat
    requires |states| == |moves| + 1 && i <= j <= |moves|
    decreases j - i
  {
    if i == j then 0
    else Unlocks(states, moves, i, j - 1)
         + (if moves[j - 1] < |states[j - 1].cpus| && states[j - 1].cpus[moves[j - 1]].Leaving? then 1 else 0)
  }

  /** While a CPU spins with `k` others ahead, each release brings it forward by one place and nothing else does. */
  lemma {:induction false} Advances(states: seq<Lock>, moves: seq<nat>, i: nat, j: nat, k: nat)
    requires IsRun(states, moves) && i <= j <= |moves| && k < |states[i].queue|
    requires forall m | i <= m <= j ::
             states[i].queue[k] < |states[m].cpus| && states[m].cpus[states[i].queue[k]].Waiting?
    ensures var u := Unlocks(states, moves, i, j);
            u <= k < |states[j].queue| + u
            && states[j].queue[k - u] == states[i].queue[k]
  {
    if i < j {
      hide Inv, Init;
      Advances(states, moves, i, j - 1, k);
      var s, c := states[j - 1], moves[j - 1];
      RunInv(states, moves, j - 1);
      if s.cpus[c].Leaving? {
        FirstOnly(s, c);
        assert s.queue[k - Unlocks(states, moves, i, j - 1)] != c;
      }
    }
  }

  /** First come, first served: a CPU with `k` others ahead enters after exactly `k` releases. */
  lemma AdmittedAfter(states: seq<Lock>, moves: seq<nat>, i: nat, j: nat, k: nat)
    requires IsRun(states, moves) && i <= j < |moves| && k < |states[i].queue|
    requires forall m | i <= m <= j ::
             states[i].queue[k] < |states[m].cpus| && states[m].cpus[states[i].queue[k]].Waiting?
    requires moves[j] == states[i].queue[k] && states[j + 1].cpus[moves[j]].Inside?
    ensures Unlocks(states, moves, i, j) == k
  {
    Advances(states, moves, i, j, k);
    RunInv(states, moves, j);
    var s, c, p := states[j], moves[j], k - Unlocks(states, moves, i, j);
    FirstOnly(s, c);
    assert NoDup(s.queue);
  }

  /** And once `k` releases have happened it can enter: its next look at the lock lets it in. */
  lemma MayEnter(states: seq<Lock>, moves: seq<nat>, i: nat, j: nat, k: nat)
    requires IsRun(states, moves) && i <= j <= |moves| && k < |states[i].queue| && Unlocks(states, moves, i, j) == k
    requires forall m | i <= m <= j ::
             states[i].queue[k] < |states[m].cpus| && states[m].cpus[states[i].queue[k]].Waiting?
    ensures Next(states[j], states[i].queue[k]).cpus[states[i].queue[k]].Inside?
  {
    Advances(states, moves, i, j, k);
    RunInv(states, moves, j);
    PlaceIs(states[j], 0);
  }

  // ----------------------------------------------------------------- progress

  lemma RunOn(states: seq<Lock>, moves: seq<nat>, c: nat)
    requires IsRun(states, moves) && c < |states[|moves|].cpus|
    ensures IsRun(states + [Next(states[|moves|], c)], moves + [c])
  {
    hide Next, Init;
    var states', moves' := states + [Next(states[|moves|], c)], moves + [c];
    forall i | 0 <= i < |moves'|
      ensures moves'[i] < |states'[i].cpus| && states'[i + 1] == Next(states'[i], moves'[i])
    {
      if i < |moves| { assert moves'[i] == moves[i]; }
    }
  }

  /** How far the first in the queue is from giving the lock away. */
  function HeadRank(p: Pc): nat {
    match p
    case Waiting(_) => 3
    case Inside(_) => 2
    case Leaving(_, _) => 1
    case Out => 0
  }

  /** One step of the first in the queue: it comes closer to the end of its turn, or the queue moves up. */
  lemma HeadStep(s: Lock)
    requires Inv(s) && s.queue != []
    ensures var h := s.queue[0];
            h < |s.cpus|
            && var s' := Next(s, h);
               && |s'.cpus| == |s.cpus|
               && if s.cpus[h].Leaving? then s'.queue == s.queue[1..]
                  else s'.queue == s.queue && HeadRank(s'.cpus[h]) < HeadRank(s.cpus[h])
  {
    PlaceIs(s, 0);
  }

  /** A CPU in the queue gets inside, if those ahead of it go on. */
  lemma {:induction false} Served(states: seq<Lock>, moves: seq<nat>, c: nat, k: nat)
    returns (states': seq<Lock>, more: seq<nat>)
    requires IsRun(states, moves) && k < |states[|moves|].queue| && states[|moves|].queue[k] == c
    ensures IsRun(states', moves + more) && states <= states'
    ensures c < |states'[|moves + more|].cpus| && In(states'[|moves + more|].cpus[c])
    decreases k, HeadRank(HeadOf(states[|moves|]))
  {
    hide Next, Init, HeadRank, Inv;
    var s := states[|moves|];
    RunInv(states, moves, |moves|);
    HeadStep(s);
    PlaceIs(s, k);
    if In(s.cpus[c]) {
      states', more := states, [];
      assert moves + more == moves;
    } else {
      var h := s.queue[0];
      RunOn(states, moves, h);
      var s1 := Next(s, h);
      var states1, moves1 := states + [s1], moves + [h];
      LastIs(states1, moves1, states, moves, s1);
      if s.cpus[h].Leaving? {
        NotFirst(s, c, k);
        states', more := Served(states1, moves1, c, k - 1);
      } else {
        states', more := Served(states1, moves1, c, k);
      }
      assert moves1 + more == moves + ([h] + more);
      more := [h] + more;
    }
  }

  function HeadOf(s: Lock): Pc {
    if s.queue != [] && s.queue[0] < |s.cpus| then s.cpus[s.queue[0]] else Out
  }

  lemma LastIs(states1: seq<Lock>, moves1: seq<nat>, states: seq<Lock>, moves: seq<nat>, s1: Lock)
    requires |states| == |moves| + 1 && states1 == states + [s1] && |moves1| == |moves| + 1
    ensures states1[|moves1|] == s1
  {
  }

  /** A CPU outside that lets the first leave stands further back. */
  lemma NotFirst(s: Lock, c: nat, k: nat)
    requires k < |s.queue| && s.queue[k] == c < |s.cpus| && !In(s.cpus[c])
    requires s.queue[0] < |s.cpus| && s.cpus[s.queue[0]].Leaving?
    ensures k > 0 && s.queue[1..][k - 1] == c
  {
  }

  /** The lock can always be had: every run goes on to a state in which a given CPU is inside. */
  lemma LockTaken(states: seq<Lock>, moves: seq<nat>, c: nat) returns (states': seq<Lock>, more: seq<nat>)
    requires IsRun(states, moves) && c < |states[|moves|].cpus|
    ensures IsRun(states', moves + more) && states <= states'
    ensures c < |states'[|moves + more|].cpus| && In(states'[|moves + more|].cpus[c])
  {
    hide Next, Init, QueueOk, PlaceOk;
    var s := states[|moves|];
    RunInv(states, moves, |moves|);
    if s.cpus[c].Out? {
      RunOn(states, moves, c);
      var s1 := Next(s, c);
      var states1, moves1 := states + [s1], moves + [c];
      LastIs(states1, moves1, states, moves, s1);
      Draws(s, c);
      states', more := Served(states1, moves1, c, |s.queue|);
      assert moves1 + more == moves + ([c] + more);
      more := [c] + more;
    } else {
      var k :| 0 <= k < |s.queue| && s.queue[k] == c;
      states', more := Served(states, moves, c, k);
    }
  }

  lemma Draws(s: Lock, c: nat)
    requires c < |s.cpus| && s.cpus[c].Out?
    ensures |Next(s, c).queue| == |s.queue| + 1 && Next(s, c).queue[|s.queue|] == c
  {
  }
}
