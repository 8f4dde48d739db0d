/** The ready queues of one CPU: a circular list per priority, the highest priority in use, and the remote queue. */
module Scheduler {
  import opened Options
  import opened Rings

  type Sc = nat
  type Links = map<Sc, Sc>
  type Queues = seq<seq<Sc>>

  /** A list head and its list. */
  ghost predicate Listed(next: Links, prev: Links, head: Option<Sc>, q: seq<Sc>) {
    if q == [] then head == None else head == Some(q[0]) && IsRing(next, prev, q)
  }

  /** Queue `p` holds scheduling contexts of priority `p`. */
  ghost predicate QueueOk(next: Links, prev: Links, prio: map<Sc, nat>, list: seq<Option<Sc>>, queues: Queues, p: nat)
    requires p < |list| == |queues|
  {
    Listed(next, prev, list[p], queues[p]) && forall x | x in queues[p] :: x in prio && prio[x] == p
  }

  ghost predicate AllQueues(next: Links, prev: Links, prio: map<Sc, nat>, list: seq<Option<Sc>>, queues: Queues) {
    |list| == |queues| && forall p {:trigger QueueOk(next, prev, prio, list, queues, p)} | 0 <= p < |list| ::
      QueueOk(next, prev, prio, list, queues, p)
  }

  /** `top` is the highest priority in use, or 0. */
  ghost predicate IsTop(queues: Queues, top: nat) {
    top < |queues| && (queues[top] != [] || top == 0) && forall p | top < p < |queues| :: queues[p] == []
  }

  function Append(queues: Queues, p: nat, x: Sc): Queues
    requires p < |queues|
  {
    queues[p := queues[p] + [x]]
  }

  ghost predicate Ready(queues: Queues, x: Sc) {
    exists p :: 0 <= p < |queues| && x in queues[p]
  }

  /** Queue all of `s`, in order. */
  ghost function AppendAll(queues: Queues, prio: map<Sc, nat>, s: seq<Sc>): (r: Queues)
    ensures |r| == |queues|
  {
    if s == [] then queues
    else
      var x, qs := s[|s| - 1], AppendAll(queues, prio, s[..|s| - 1]);
      if x in prio && prio[x] < |qs| then Append(qs, prio[x], x) else qs
  }

  /** Those of `s` with priority `p`, in order. */
  ghost function OfPriority(prio: map<Sc, nat>, s: seq<Sc>, p: nat): seq<Sc> {
    if s == [] then []
    else
      var x := s[|s| - 1];
      OfPriority(prio, s[..|s| - 1], p) + (if x in prio && prio[x] == p then [x] else [])
  }

  /** None lost, none duplicated, order kept: each queue grows by exactly its share. */
  lemma {:induction false} AppendAllIs(queues: Queues, prio: map<Sc, nat>, s: seq<Sc>, p: nat)
    requires p < |queues|
    ensures AppendAll(queues, prio, s)[p] == queues[p] + OfPriority(prio, s, p)
  {
    if s != [] {
      AppendAllIs(queues, prio, s[..|s| - 1], p);
    }
  }

  // ----------------------------------------------------------- queue by queue

  lemma QueueAt(next: Links, prev: Links, prio: map<Sc, nat>, list: seq<Option<Sc>>, queues: Queues, p: nat)
    requires AllQueues(next, prev, prio, list, queues) && p < |queues|
    ensures |list| == |queues| && QueueOk(next, prev, prio, list, queues, p)
  {
  }

  /** Changing queue `p`, and pointers of its nodes and of `x` only, keeps the others. */
  lemma OtherQueues(next: Links, prev: Links, next': Links, prev': Links, prio: map<Sc, nat>, list: seq<Option<Sc>>,
                    queues: Queues, p: nat, x: Sc, head: Option<Sc>, q: seq<Sc>)
    requires AllQueues(next, prev, prio, list, queues) && p < |queues| && x in prio && prio[x] == p
    requires forall n | n in next && n != x && n !in queues[p] :: n in next' && next'[n] == next[n]
    requires forall n | n in prev && n != x && n !in queues[p] :: n in prev' && prev'[n] == prev[n]
    requires Listed(next', prev', head, q) && forall y | y in q :: y in prio && prio[y] == p
    ensures AllQueues(next', prev', prio, list[p := head], queues[p := q])
  {
    hide IsRing;
    QueueAt(next, prev, prio, list, queues, p);
    var list', queues' := list[p := head], queues[p := q];
    forall r | 0 <= r < |list| ensures QueueOk(next', prev', prio, list', queues', r) {
      QueueAt(next, prev, prio, list, queues, r);
      if r != p && queues[r] != [] {
        KeptRing(next, prev, next', prev', prio, queues[r], queues[p], p, x);
      }
    }
  }

  lemma KeptRing(next: Links, prev: Links, next': Links, prev': Links, prio: map<Sc, nat>, q: seq<Sc>, o: seq<Sc>,
                 p: nat, x: Sc)
    requires IsRing(next, prev, q) && (forall y | y in q :: y in prio && prio[y] != p)
    requires (forall y | y in o :: y in prio && prio[y] == p)
    requires x in prio && prio[x] == p
    requires forall n | n in next && n != x && n !in o :: n in next' && next'[n] == next[n]
    requires forall n | n in prev && n != x && n !in o :: n in prev' && prev'[n] == prev[n]
    ensures IsRing(next', prev', q)
  {
    hide IsRing;
    RingKeys(next, prev, q);
    RingFrame(next, prev, next', prev', q);
  }

  lemma Single(next: Links, prev: Links, x: Sc)
    requires x in next && next[x] == x && x in prev && prev[x] == x
    ensures IsRing(next, prev, [x])
  {
    assert LinkedAt(next, prev, [x], 0);
  }

  /** A node leaves its ring; its own pointers are cleared. */
  lemma LeaveRing(next: Links, prev: Links, q: seq<Sc>, k: nat, x: Sc)
    requires k < |q| && x == q[k] && IsRing(next, prev, q) && x in next && x in prev && next[x] in prev
    requires prev[x] in next
    ensures var next', prev' := next[prev[x] := next[x]] - {x}, prev[next[x] := prev[x]] - {x};
            |q| > 1 ==> IsRing(next', prev', Without(q, k))
    ensures next[x] == x <==> |q| == 1
    ensures next[x] == q[After(k, |q|)]
    ensures next[x] in q && prev[x] in q && x !in Without(q, k) && NoDup(q)
  {
    Neighbours(next, prev, q, k);
    assert q[After(k, |q|)] in q;
    assert NoDup(q);
    WithoutMembers(q, k);
    if |q| > 1 {
      hide IsRing;
      UnlinkAny(next, prev, q, k);
      var n1, p1 := next[prev[x] := next[x]], prev[next[x] := prev[x]];
      RingKeys(n1, p1, Without(q, k));
      RingFrame(n1, p1, n1 - {x}, p1 - {x}, Without(q, k));
    }
  }

  // -------------------------------------------------------------- one CPU

  ghost predicate Idle(queues: Queues, rq: seq<Sc>, x: Sc) {
    !Ready(queues, x) && x !in rq
  }

  class ReadyList {
    const prio: map<Sc, nat>
    var list: seq<Option<Sc>>
    var top: nat
    var next: Links
    var prev: Links
    var current: Sc
    var remote: Option<Sc>
    var resched: bool  // HZD_SCHED
    var rrq: bool  // HZD_RRQ, raised together with an interrupt
    ghost var queues: Queues
    ghost var rq: seq<Sc>

    ghost predicate Valid()
      reads this
    {
      && |list| == |queues| && AllQueues(next, prev, prio, list, queues) && IsTop(queues, top)
      && Listed(next, prev, remote, rq)
      && (forall x | x in rq :: x in prio && prio[x] < |queues| && !Ready(queues, x))
      && current in prio && prio[current] < |queues|
    }

    /** All lists empty; `c`, the idle context, is running. */
    constructor (prio: map<Sc, nat>, n: nat, c: Sc)
      requires c in prio && prio[c] < n
      ensures Valid() && this.prio == prio && queues == seq(n, _ => []) && rq == [] && current == c
    {
      this.prio, current := prio, c;
      list, queues := seq(n, _ => None), seq(n, _ => []);
      top, next, prev, remote, resched, rrq, rq := 0, map[], map[], None, false, false, [];
    }

    method ReadyEnqueue(x: Sc)
      requires Valid() && x in prio && prio[x] < |queues| && Idle(queues, rq, x)
      modifies this`list, this`top, this`next, this`prev, this`resched, this`queues
      ensures Valid() && queues == Append(old(queues), prio[x], x)
      ensures resched == (old(resched) || prio[x] > prio[current])
    {
      hide IsRing, AllQueues, Ready;
      var p := prio[x];
      QueueAt(next, prev, prio, list, queues, p);
      NotQueued(queues, rq, x, p);
      ghost var q := queues[p];
      if p > top {
        top := p;
      }
      if list[p] == None {
        list := list[p := Some(x)];
        next, prev := next[x := x], prev[x := x];
        Single(next, prev, x);
        assert q + [x] == [x];
      } else {
        var h := list[p].value;
        LinkLast(next, prev, q, x);
        next, prev := next[x := h][prev[h] := x], prev[x := prev[h]][h := x];
      }
      JoinQueues(old(next), old(prev), next, prev, prio, old(list), list, queues, rq, remote, p, x);
      TopAfterJoin(queues, old(top), p, x);
      queues := Append(queues, p, x);
      if p > prio[current] {
        resched := true;
      }
    }

    method ReadyDequeue(x: Sc, ghost k: nat)
      requires Valid() && x in prio && prio[x] < |queues| && k < |queues[prio[x]]| && queues[prio[x]][k] == x
      modifies this`list, this`top, this`next, this`prev, this`queues
      ensures Valid() && queues == old(queues)[prio[x] := Without(old(queues)[prio[x]], k)]
    {
      hide IsRing, AllQueues, Ready, Without, NoDup;
      var p := prio[x];
      QueueAt(next, prev, prio, list, queues, p);
      ghost var q := queues[p];
      Neighbours(next, prev, q, k);
      Neighbours(next, prev, q, After(k, |q|));
      Neighbours(next, prev, q, if k == 0 then |q| - 1 else k - 1);
      LeaveRing(next, prev, q, k, x);
      if list[p] == Some(x) {
        list := list[p := if next[x] == x then None else Some(next[x])];
      }
      next, prev := next[prev[x] := next[x]] - {x}, prev[next[x] := prev[x]] - {x};
      HeadAfterLeave(old(next), old(prev), next, prev, old(list)[p], list[p], q, k, x);
      LeaveQueues(old(next), old(prev), next, prev, prio, old(list), list, queues, rq, remote, p, k, x);
      queues := queues[p := Without(q, k)];
      TopBound(old(queues), queues, p, top);
      LowerTop();
    }

    /** Lower `top` to the highest priority in use. */
    method LowerTop()
      requires |list| == |queues| && AllQueues(next, prev, prio, list, queues) && top < |queues|
      requires AboveEmpty(queues, top)
      modifies this`top
      ensures IsTop(queues, top)
    {
      while list[top] == None && top > 0
        invariant top < |queues| && AboveEmpty(queues, top)
      {
        QueueAt(next, prev, prio, list, queues, top);
        top := top - 1;
      }
      QueueAt(next, prev, prio, list, queues, top);
    }

    /**
     `schedule`: the running context goes to the end of its queue or is suspended; the first of the highest queue
     runs.
     */
    method Schedule(suspend: bool)
      requires Valid() && (!suspend ==> Idle(queues, rq, current)) && (suspend ==> queues[top] != [])
      modifies this`list, this`top, this`next, this`prev, this`resched, this`queues, this`current
      ensures Valid()
      ensures Scheduled(old(queues), old(current), prio, suspend, queues, current)
    {
      hide IsRing, AllQueues, Ready, Listed;
      if !suspend {
        ReadyEnqueue(current);
        TopInUse(old(queues), prio[current], current, top);
      }
      ghost var qs := queues;
      var head := list[top];
      QueueHead(next, prev, prio, list, queues, top);
      assert head != None;
      current := head.value;
      ReadyDequeue(current, 0);
      WithoutFirst(qs[prio[current]]);
      ScheduledIs(old(queues), old(current), prio, suspend, qs, prio[current]);
    }

    /** `remote_enqueue`, as another CPU does it. */
    method RemoteEnqueue(x: Sc)
      requires Valid() && x in prio && prio[x] < |queues| && Idle(queues, rq, x)
      modifies this`next, this`prev, this`remote, this`rrq, this`rq
      ensures Valid() && rq == old(rq) + [x] && rrq == (old(rrq) || old(rq) == [])
    {
      hide IsRing, AllQueues, Ready;
      if remote != None {
        var h := remote.value;
        LinkLast(next, prev, rq, x);
        next, prev := next[x := h][prev[h] := x], prev[x := prev[h]][h := x];
      } else {
        remote, rrq := Some(x), true;
        next, prev := next[x := x], prev[x := x];
        Single(next, prev, x);
        assert rq + [x] == [x];
      }
      KeepQueues(old(next), old(prev), next, prev, prio, list, queues, rq, x);
      rq := rq + [x];
      NotReady(queues, old(rq), x);
    }

    /** Move the first context of the remote queue to its ready queue. Returns the new first one. */
    method MoveOne() returns (ptr: Option<Sc>)
      requires Valid() && rq != []
      modifies this`list, this`top, this`next, this`prev, this`resched, this`queues, this`remote, this`rq
      ensures Valid() && rq == old(rq)[1..] && remote == ptr
      ensures old(rq)[0] in prio && prio[old(rq)[0]] < |old(queues)|
      ensures queues == Append(old(queues), prio[old(rq)[0]], old(rq)[0])
      ensures current in prio && resched == (old(resched) || prio[old(rq)[0]] > prio[current])
    {
      hide IsRing, AllQueues, Ready;
      var x := remote.value;
      TakeFirst(next, prev, rq, x);
      RemoteAt(prio, queues, rq, x);
      ptr := if next[x] == x then None else Some(next[x]);
      next, prev := next[prev[x] := next[x]], prev[next[x] := prev[x]];
      KeepQueues(old(next), old(prev), next, prev, prio, list, queues, rq, x);
      remote, rq := ptr, rq[1..];
      ReadyEnqueue(x);
    }

    /** `rrq_handler`: all remotely queued contexts join the ready queues, in order. */
    method RrqHandler()
      requires Valid()
      modifies this`list, this`top, this`next, this`prev, this`resched, this`queues, this`remote, this`rq
      ensures Valid() && rq == []
      ensures queues == AppendAll(old(queues), prio, old(rq))
      ensures resched == (old(resched) || Outranks(prio, old(rq), current))
    {
      hide IsRing, AllQueues, Ready, AppendAll, IsTop, Append, Outranks;
      var ptr := remote;
      NoneOutranks(prio, current);
      ghost var all, n := rq, 0;
      AppendNone(queues, prio, all);
      while ptr != None
        invariant Valid() && ptr == remote && n <= |all| && rq == all[n..] && |queues| == |old(queues)|
        invariant queues == AppendAll(old(queues), prio, all[..n])
        invariant resched == (old(resched) || Outranks(prio, all[..n], current))
        decreases |rq|
      {
        assert all[..n + 1] == all[..n] + [rq[0]];
        RemoteAt(prio, queues, rq, rq[0]);
        AppendNext(old(queues), prio, all, n);
        ghost var x := rq[0];
        ptr := MoveOne();
        OutranksMore(prio, all[..n], x, current);
        n := n + 1;
      }
      assert all[..n] == all;
      remote := None;
    }
  }

  /** Some context of the list has a higher priority than `cur`. */
  predicate Outranks(prio: map<Sc, nat>, q: seq<Sc>, cur: Sc) {
    exists x :: x in q && x in prio && cur in prio && prio[x] > prio[cur]
  }

  lemma NoneOutranks(prio: map<Sc, nat>, cur: Sc)
    ensures !Outranks(prio, [], cur)
  {
  }

  lemma OutranksMore(prio: map<Sc, nat>, q: seq<Sc>, x: Sc, cur: Sc)
    requires x in prio && cur in prio
    ensures Outranks(prio, q + [x], cur) <==> Outranks(prio, q, cur) || prio[x] > prio[cur]
  {
    if prio[x] > prio[cur] { assert x in q + [x]; }
    if Outranks(prio, q, cur) {
      var y :| y in q && y in prio && prio[y] > prio[cur];
      assert y in q + [x];
    }
  }

  /** What scheduling does to the queues: the longest-waiting context of the highest priority runs. */
  ghost predicate Scheduled(queues: Queues, cur: Sc, prio: map<Sc, nat>, suspend: bool, queues': Queues, cur': Sc)
  {
    && cur in prio && prio[cur] < |queues| && cur' in prio && prio[cur'] < |queues|
    && var qs, p := if suspend then queues else Append(queues, prio[cur], cur), prio[cur'];
    && qs[p] != [] && cur' == qs[p][0] && queues' == qs[p := qs[p][1..]] && AboveEmpty(qs, p)
  }

  lemma ScheduledIs(queues: Queues, cur: Sc, prio: map<Sc, nat>, suspend: bool, qs: Queues, p: nat)
    requires cur in prio && prio[cur] < |queues| && qs == if suspend then queues else Append(queues, prio[cur], cur)
    requires p < |qs| && qs[p] != [] && IsTop(qs, p) && qs[p][0] in prio && prio[qs[p][0]] == p
    ensures Scheduled(queues, cur, prio, suspend, qs[p := qs[p][1..]], qs[p][0])
  {
  }

  lemma QueueHead(next: Links, prev: Links, prio: map<Sc, nat>, list: seq<Option<Sc>>, queues: Queues, p: nat)
    requires AllQueues(next, prev, prio, list, queues) && p < |queues| && queues[p] != []
    ensures |list| == |queues| && list[p] == Some(queues[p][0]) && queues[p][0] in prio && prio[queues[p][0]] == p
  {
    QueueAt(next, prev, prio, list, queues, p);
    assert queues[p][0] in queues[p];
  }

  lemma WithoutFirst(q: seq<Sc>)
    requires q != []
    ensures Without(q, 0) == q[1..]
  {
  }

  /** The first of the remote queue is taken out. */
  lemma TakeFirst(next: Links, prev: Links, rq: seq<Sc>, x: Sc)
    requires rq != [] && x == rq[0] && IsRing(next, prev, rq)
    ensures x in next && x in prev && next[x] in prev && prev[x] in next && next[x] in rq && prev[x] in rq && x in rq
    ensures x !in rq[1..]
    ensures Listed(next[prev[x] := next[x]], prev[next[x] := prev[x]], if next[x] == x then None
                   else Some(next[x]), rq[1..])
  {
    Neighbours(next, prev, rq, 0);
    Neighbours(next, prev, rq, After(0, |rq|));
    Neighbours(next, prev, rq, |rq| - 1);
    assert rq[After(0, |rq|)] in rq && rq[|rq| - 1] in rq;
    if |rq| > 1 {
      assert rq[1] != rq[0];
      UnlinkFirst(next, prev, rq);
    }
  }

  lemma RemoteAt(prio: map<Sc, nat>, queues: Queues, rq: seq<Sc>, x: Sc)
    requires (forall y | y in rq :: y in prio && prio[y] < |queues| && !Ready(queues, y)) && x in rq
    ensures x in prio && prio[x] < |queues| && (x !in rq[1..] ==> Idle(queues, rq[1..], x))
    ensures forall y | y in rq[1..] :: y in rq
  {
  }

  lemma NotReady(queues: Queues, rq: seq<Sc>, x: Sc)
    requires Idle(queues, rq, x) && forall y | y in rq :: !Ready(queues, y)
    ensures forall y | y in rq + [x] :: !Ready(queues, y)
  {
  }

  /** Pointers of contexts that are not ready do not matter to the ready queues. */
  lemma KeepQueues(next: Links, prev: Links, next': Links, prev': Links, prio: map<Sc, nat>, list: seq<Option<Sc>>,
                   queues: Queues, rq: seq<Sc>, x: Sc)
    requires AllQueues(next, prev, prio, list, queues) && !Ready(queues, x) && forall y | y in rq :: !Ready(queues, y)
    requires forall n | n in next && n != x && n !in rq :: n in next' && next'[n] == next[n]
    requires forall n | n in prev && n != x && n !in rq :: n in prev' && prev'[n] == prev[n]
    ensures AllQueues(next', prev', prio, list, queues)
  {
    hide IsRing;
    forall p | 0 <= p < |list| ensures QueueOk(next', prev', prio, list, queues, p) {
      QueueAt(next, prev, prio, list, queues, p);
      if queues[p] != [] {
        RingKeys(next, prev, queues[p]);
        forall y | y in queues[p] ensures y !in rq && y != x { assert Ready(queues, y); }
        RingFrame(next, prev, next', prev', queues[p]);
      }
    }
  }

  lemma AppendNone(queues: Queues, prio: map<Sc, nat>, s: seq<Sc>)
    ensures AppendAll(queues, prio, s[..0]) == queues && s[0..] == s
  {
  }

  lemma AppendNext(queues: Queues, prio: map<Sc, nat>, s: seq<Sc>, n: nat)
    requires n < |s| && s[n] in prio && prio[s[n]] < |queues|
    ensures s[n..] != [] && s[n..][0] == s[n] && s[n..][1..] == s[n + 1..]
    ensures AppendAll(queues, prio, s[..n + 1]) == Append(AppendAll(queues, prio, s[..n]), prio[s[n]], s[n])
  {
    var t := s[..n + 1];
    assert t[..|t| - 1] == s[..n] && t[|t| - 1] == s[n];
  }

  ghost predicate AboveEmpty(queues: Queues, top: nat) {
    forall p | top < p < |queues| :: queues[p] == []
  }

  lemma NotQueued(queues: Queues, rq: seq<Sc>, x: Sc, p: nat)
    requires Idle(queues, rq, x) && p < |queues|
    ensures x !in queues[p]
  {
  }

  lemma TopAfterJoin(queues: Queues, top: nat, p: nat, x: Sc)
    requires IsTop(queues, top) && p < |queues|
    ensures IsTop(Append(queues, p, x), if p > top then p else top)
  {
  }

  lemma TopInUse(queues: Queues, p: nat, x: Sc, top: nat)
    requires p < |queues| && IsTop(Append(queues, p, x), top)
    ensures Append(queues, p, x)[top] != []
  {
    assert Append(queues, p, x)[p] != [];
  }

  lemma TopBound(queues: Queues, queues': Queues, p: nat, top: nat)
    requires IsTop(queues, top) && p < |queues| == |queues'| && queues' == queues[p := queues'[p]] && queues[p] != []
    ensures AboveEmpty(queues', top)
  {
  }

  lemma JoinQueues(next: Links, prev: Links, next': Links, prev': Links, prio: map<Sc, nat>, list: seq<Option<Sc>>,
                   list': seq<Option<Sc>>, queues: Queues, rq: seq<Sc>, remote: Option<Sc>, p: nat, x: Sc)
    requires AllQueues(next, prev, prio, list, queues) && p < |queues| && x in prio && prio[x] == p
    requires Idle(queues, rq, x)
    requires Listed(next, prev, remote, rq) && forall y | y in rq :: !Ready(queues, y)
    requires |list'| == |list| == |queues| && list' == list[p := list'[p]]
    requires Listed(next', prev', list'[p], queues[p] + [x])
    requires forall n | n in next && n != x && n !in queues[p] :: n in next' && next'[n] == next[n]
    requires forall n | n in prev && n != x && n !in queues[p] :: n in prev' && prev'[n] == prev[n]
    ensures AllQueues(next', prev', prio, list', Append(queues, p, x)) && Listed(next', prev', remote, rq)
    ensures forall y | y in rq :: !Ready(Append(queues, p, x), y)
  {
    hide IsRing;
    QueueAt(next, prev, prio, list, queues, p);
    OtherQueues(next, prev, next', prev', prio, list, queues, p, x, list'[p], queues[p] + [x]);
    if rq != [] {
      RingKeys(next, prev, rq);
      forall y | y in rq ensures y !in queues[p] && y != x { assert !Ready(queues, y); }
      RingFrame(next, prev, next', prev', rq);
    }
    forall y | y in rq ensures !Ready(Append(queues, p, x), y) {
      assert !Ready(queues, y);
    }
  }

  lemma HeadAfterLeave(next: Links, prev: Links, next': Links, prev': Links, head: Option<Sc>, head': Option<Sc>,
                       q: seq<Sc>, k: nat, x: Sc)
    requires k < |q| && q[k] == x && NoDup(q) && head == Some(q[0]) && x in next && next[x] == q[After(k, |q|)]
    requires head' == if head == Some(x) then (if next[x] == x then None else Some(next[x])) else head
    requires next[x] == x <==> |q| == 1
    requires |q| > 1 ==> IsRing(next', prev', Without(q, k))
    ensures Listed(next', prev', head', Without(q, k))
  {
    hide IsRing;
    assert k != 0 ==> q[0] != q[k];
    if |q| > 1 { assert Without(q, k)[0] == if k == 0 then q[1] else q[0]; }
  }

  lemma LeaveQueues(next: Links, prev: Links, next': Links, prev': Links, prio: map<Sc, nat>, list: seq<Option<Sc>>,
                    list': seq<Option<Sc>>, queues: Queues, rq: seq<Sc>, remote: Option<Sc>, p: nat, k: nat, x: Sc)
    requires AllQueues(next, prev, prio, list, queues) && p < |queues| && k < |queues[p]| && queues[p][k] == x
    requires x in prio
    requires prio[x] == p
    requires Listed(next, prev, remote, rq) && forall y | y in rq :: !Ready(queues, y)
    requires |list'| == |list| == |queues| && list' == list[p := list'[p]]
    requires Listed(next', prev', list'[p], Without(queues[p], k))
    requires forall n | n in next && n != x && n !in queues[p] :: n in next' && next'[n] == next[n]
    requires forall n | n in prev && n != x && n !in queues[p] :: n in prev' && prev'[n] == prev[n]
    ensures var queues' := queues[p := Without(queues[p], k)];
            && AllQueues(next', prev', prio, list', queues') && Listed(next', prev', remote, rq)
            && forall y | y in rq :: !Ready(queues', y)
  {
    hide IsRing;
    QueueAt(next, prev, prio, list, queues, p);
    OtherQueues(next, prev, next', prev', prio, list, queues, p, x, list'[p], Without(queues[p], k));
    if rq != [] {
      RingKeys(next, prev, rq);
      forall y | y in rq ensures y !in queues[p] && y != x { assert !Ready(queues, y); }
      RingFrame(next, prev, next', prev', rq);
    }
    var queues' := queues[p := Without(queues[p], k)];
    forall y | y in rq ensures !Ready(queues', y) {
      assert !Ready(queues, y);
    }
  }

  // --------------------------------------------------------------------- runs

  /** What happens on a CPU: it schedules, or a context becomes ready. */
  datatype Event = Sched(suspend: bool) | Arrive(x: Sc)

  datatype View = View(queues: Queues, cur: Sc)

  ghost predicate Step(prio: map<Sc, nat>, v: View, e: Event, v': View) {
    match e
    case Sched(suspend) => Scheduled(v.queues, v.cur, prio, suspend, v'.queues, v'.cur)
    case Arrive(x) => x in prio && prio[x] < |v.queues| && v'.queues == Append(v.queues, prio[x], x) && v'.cur == v.cur
  }

  ghost predicate IsRun(prio: map<Sc, nat>, views: seq<View>, events: seq<Event>) {
    |views| == |events| + 1 && forall i {:trigger events[i]} | 0 <= i < |events| ::
      Step(prio, views[i], events[i], views[i + 1])
  }

  /** How many of the events `i .. j` are scheduling decisions. */
  ghost function Scheds(events: seq<Event>, i: nat, j: nat): nat
    requires i <= j <= |events|
    decreases j - i
  {
    if i == j then 0 else Scheds(events, i, j - 1) + (if events[j - 1].Sched? then 1 else 0)
  }

  /** `x` waits at place `k` of queue `p`, and nothing of higher priority is ready or running. */
  ghost predicate WaitsAt(prio: map<Sc, nat>, v: View, p: nat, k: nat, x: Sc) {
    p < |v.queues| && AboveEmpty(v.queues, p) && k < |v.queues[p]| && v.queues[p][k] == x && v.cur in prio
      && prio[v.cur] <= p
  }

  lemma WaitStep(prio: map<Sc, nat>, v: View, e: Event, v': View, p: nat, k: nat, x: Sc)
    requires Step(prio, v, e, v') && WaitsAt(prio, v, p, k, x) && (e.Arrive? ==> e.x in prio && prio[e.x] <= p)
    ensures e.Arrive? ==> WaitsAt(prio, v', p, k, x)
    ensures e.Sched? && k > 0 ==> WaitsAt(prio, v', p, k - 1, x)
    ensures e.Sched? && k == 0 ==> v'.cur == x
  {
    if e.Sched? {
      var qs := if e.suspend then v.queues else Append(v.queues, prio[v.cur], v.cur);
      assert qs[p][k] == x && AboveEmpty(qs, p);
    }
  }

  /**
   While nothing of higher priority arrives, each scheduling decision brings a waiting context forward by one
   place.
   */
  lemma {:induction false} MovesUp(prio: map<Sc, nat>, views: seq<View>, events: seq<Event>, i: nat, j: nat, p: nat,
                                   k: nat, x: Sc)
    requires IsRun(prio, views, events) && i <= j <= |events| && WaitsAt(prio, views[i], p, k, x)
    requires Scheds(events, i, j) <= k
    requires forall m | i <= m < j && events[m].Arrive? :: events[m].x in prio && prio[events[m].x] <= p
    ensures WaitsAt(prio, views[j], p, k - Scheds(events, i, j), x)
  {
    hide WaitsAt, Step;
    if i < j {
      MovesUp(prio, views, events, i, j - 1, p, k, x);
      assert Step(prio, views[j - 1], events[j - 1], views[j]);
      WaitStep(prio, views[j - 1], events[j - 1], views[j], p, k - Scheds(events, i, j - 1), x);
    }
  }

  /** With `k` peers ahead, a context runs at the next scheduling decision after `k` further ones. */
  lemma RunsAfter(prio: map<Sc, nat>, views: seq<View>, events: seq<Event>, i: nat, j: nat, p: nat, k: nat, x: Sc)
    requires IsRun(prio, views, events) && i <= j < |events| && WaitsAt(prio, views[i], p, k, x)
    requires Scheds(events, i, j) == k && events[j].Sched?
    requires forall m | i <= m < j && events[m].Arrive? :: events[m].x in prio && prio[events[m].x] <= p
    ensures views[j + 1].cur == x
  {
    MovesUp(prio, views, events, i, j, p, k, x);
    assert Step(prio, views[j], events[j], views[j + 1]);
    WaitStep(prio, views[j], events[j], views[j + 1], p, 0, x);
  }
}
