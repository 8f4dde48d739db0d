/** The lists of RCU: open chains while they fill, rings once appended, threaded through the elements. */
module RcuLists {
  import opened Rings

  type Elem = nat

  /** An element's `next`: unused, the last of an open chain, or linked. */
  datatype Ptr = Null | InUse | To(e: Elem)

  type Links = map<Elem, Ptr>

  /** What `tail` points to: the head of its list, or the `next` of an element. */
  datatype Spot = Head | Next(e: Elem)

  datatype List = List(head: Ptr, tail: Spot, count: nat)

  const EMPTY := List(Null, Head, 0)

  function Get(link: Links, e: Elem): Ptr {
    if e in link then link[e] else Null
  }

  /** Every element but the last links to the one behind it. */
  ghost predicate Chained(link: Links, s: seq<Elem>) {
    forall k {:trigger s[k]} | 0 <= k < |s| - 1 :: Get(link, s[k]) == To(s[k + 1])
  }

  /** The list holds `s`, as a ring if `closed`. */
  ghost predicate Holds(link: Links, l: List, s: seq<Elem>, closed: bool) {
    && NoDup(s) && l.count >= |s|
    && if s == [] then l == EMPTY && !closed
       else && l.head == To(s[0]) && l.tail == Next(s[|s| - 1]) && Chained(link, s)
            && var last := s[|s| - 1];
            if closed then Get(link, last) == To(s[0]) else Get(link, last) == InUse || Get(link, last) == To(last)
  }

  /** Writing links of other elements does not matter. */
  lemma HoldsFrame(link: Links, link': Links, l: List, s: seq<Elem>, closed: bool)
    requires Holds(link, l, s, closed) && forall e | e in s :: Get(link', e) == Get(link, e)
    ensures Holds(link', l, s, closed)
  {
  }

  /** No element is in two lists. */
  ghost predicate Apart(contents: seq<seq<Elem>>) {
    forall i, j, e | 0 <= i < |contents| && 0 <= j < |contents| && e in contents[i] && e in contents[j] :: i == j
  }

  ghost predicate Queued(contents: seq<seq<Elem>>, e: Elem) {
    exists i :: 0 <= i < |contents| && e in contents[i]
  }

  class Lists {
    var link: Links
    var lists: seq<List>
    ghost var contents: seq<seq<Elem>>
    ghost var closed: seq<bool>

    ghost predicate Valid()
      reads this
    {
      AllHold(link, lists, contents, closed)
    }

    constructor (n: nat)
      ensures Valid() && contents == seq(n, _ => []) && closed == seq(n, _ => false) && lists == seq(n, _ => EMPTY)
    {
      link := map[];
      lists := seq(n, _ => EMPTY);
      contents := seq(n, _ => []);
      closed := seq(n, _ => false);
    }

    /**
     `enqueue` on an open list. An unused element joins the end. A queued one is refused, unless it is the last of this
     very list and was not enqueued again before: then only the count grows.
     */
    method Enqueue(i: nat, e: Elem) returns (ok: bool)
      requires Valid() && i < |lists| == |closed| && !closed[i]
      modifies this`link, this`lists, this`contents
      ensures Valid() && |lists| == |old(lists)| && |old(contents)| == |old(lists)|
      ensures ok <==> !Queued(old(contents), e) || (Get(old(link), e) == InUse && old(lists)[i].tail == Next(e))
      ensures contents == if Queued(old(contents), e) then old(contents) else old(contents)[i := old(contents)[i] + [e]]
      ensures lists == if ok then old(lists)[i := lists[i]] else old(lists)
      ensures lists[i].count == old(lists)[i].count + if ok then 1 else 0
      ensures if ok then lists[i].tail == Next(e) else link == old(link)
      ensures !Queued(old(contents), e) ==> Get(link, e) == InUse
    {
      hide AllHold, Queued;
      var l := lists[i];
      Sizes(link, lists, contents, closed, e);
      if Get(link, e) != Null && Get(link, e) != InUse {
        return false;
      }
      if Get(link, e) == InUse && l.tail != Next(e) {
        return false;
      }
      if Get(link, e) == Null {
        Enter(link, lists, contents, closed, i, e);
        TailIn(link, lists, contents, closed, i, e);
        contents := contents[i := contents[i] + [e]];
        link := link[e := InUse];
      } else {
        Again(link, lists, contents, closed, i, e);
      }
      if l.tail == Head {
        l := l.(head := To(e));
      } else {
        link := link[l.tail.e := To(e)];
      }
      l := l.(count := l.count + 1, tail := Next(e));
      lists := lists[i := l];
      return true;
    }

    /** `append`: list `j` goes behind list `i`, and the result is a ring. */
    method Append(i: nat, j: nat)
      requires Valid() && i < |lists| && j < |lists| && i != j && |contents| == |closed| == |lists|
      requires contents[j] != [] && (contents[i] == [] || closed[i])
      modifies this`link, this`lists, this`contents, this`closed
      ensures Valid() && |lists| == |old(lists)|
      ensures contents == old(contents)[i := old(contents)[i] + old(contents)[j]][j := []]
      ensures closed == old(closed)[i := true][j := false]
      ensures lists[i].count == old(lists)[i].count + old(lists)[j].count && lists[j] == EMPTY
    {
      hide AllHold;
      var l, m := lists[i], lists[j];
      AppendAll(link, lists, contents, closed, i, j);
      if l.tail == Head {
        l := l.(head := m.head);
      } else {
        link := link[l.tail.e := m.head];
      }
      l := l.(tail := m.tail);
      link := link[l.tail.e := l.head];
      l := l.(count := l.count + m.count);
      lists := lists[i := l][j := EMPTY];
      contents := contents[i := contents[i] + contents[j]][j := []];
      closed := closed[i := true][j := false];
    }

    /** `invoke_batch`: every element of the ring is visited once, in order, and unused from then on. */
    method InvokeBatch(i: nat) returns (visited: seq<Elem>)
      requires Valid() && i < |lists| && |contents| == |closed| == |lists| && closed[i]
      modifies this`link, this`lists, this`contents, this`closed
      ensures Valid() && |lists| == |old(lists)| && visited == old(contents)[i]
      ensures contents == old(contents)[i := []] && closed == old(closed)[i := false]
      ensures forall e :: Get(link, e) == if e in visited then Null else Get(old(link), e)
    {
      hide AllHold;
      ghost var s := contents[i];
      visited := [];
      RingStart(link, lists, contents, closed, i);
      var e, n := lists[i].head, Null;
      while n != lists[i].head
        invariant lists == old(lists) && contents == old(contents) && closed == old(closed)
        invariant |visited| <= |s| && visited == s[..|visited|]
        invariant n == (if visited == [] then Null else To(s[Wrap(|visited|, |s|)]))
        invariant e == To(s[Wrap(|visited|, |s|)])
        invariant Unlinked(old(link), link, visited)
        decreases |s| - |visited|
      {
        RingNext(old(link), link, lists[i], s, visited);
        n := Get(link, e.e);
        link := link[e.e := Null];
        visited := visited + [e.e];
        e := n;
      }
      RingEnd(s, visited, n);
      ClearAll(old(link), link, lists, contents, closed, i);
      lists := lists[i := EMPTY];
      contents := contents[i := []];
      closed := closed[i := false];
    }
  }

  lemma TailIn(link: Links, lists: seq<List>, contents: seq<seq<Elem>>, closed: seq<bool>, i: nat, e: Elem)
    requires AllHold(link, lists, contents, closed) && i < |lists| && Get(link, e) == Null
    ensures lists[i].tail != Next(e)
  {
    assert Holds(link, lists[i], contents[i], closed[i]);
    if contents[i] != [] { assert Queued(contents, contents[i][|contents[i]| - 1]); }
  }

  /** The last element of a list can be enqueued a second time: the list stays as it is, but counts it twice. */
  method CountedTwice() returns (c: Lists)
    ensures c.Valid() && c.contents == [[7]] && |c.lists| == 1 && c.lists[0].count == 2
  {
    hide AllHold;
    c := new Lists(1);
    ghost var was := c.contents;
    assert was == [[]] && was[0] + [7] == [7];
    NoneQueued(c.contents, 7);
    Sizes(c.link, c.lists, c.contents, c.closed, 7);
    var ok := c.Enqueue(0, 7);
    assert c.contents == [[7]];
    assert 7 in c.contents[0];
    ok := c.Enqueue(0, 7);
  }

  lemma NoneQueued(contents: seq<seq<Elem>>, e: Elem)
    requires forall i | 0 <= i < |contents| :: contents[i] == []
    ensures !Queued(contents, e)
  {
  }

  lemma Sizes(link: Links, lists: seq<List>, contents: seq<seq<Elem>>, closed: seq<bool>, e: Elem)
    requires AllHold(link, lists, contents, closed)
    ensures |contents| == |closed| == |lists| && (Get(link, e) != Null <==> Queued(contents, e))
  {
  }

  /** What appending does to the pointers. */
  function AppendLink(link: Links, l: List, m: List): Links
    requires m.tail != Head
  {
    if l.tail == Head then link[m.tail.e := m.head] else link[l.tail.e := m.head][m.tail.e := l.head]
  }

  function AppendList(l: List, m: List): List {
    List(if l.tail == Head then m.head else l.head, m.tail, l.count + m.count)
  }

  lemma AppendAll(link: Links, lists: seq<List>, contents: seq<seq<Elem>>, closed: seq<bool>, i: nat, j: nat)
    requires AllHold(link, lists, contents, closed) && i < |lists| && j < |lists| && i != j
    requires |contents| == |closed| == |lists|
    requires contents[j] != [] && (contents[i] == [] || closed[i])
    ensures lists[j].tail != Head
    ensures AllHold(AppendLink(link, lists[i], lists[j]), lists[i := AppendList(lists[i], lists[j])][j := EMPTY],
                    contents[i := contents[i] + contents[j]][j := []], closed[i := true][j := false])
  {
    hide Queued;
    assert Holds(link, lists[i], contents[i], closed[i]) && Holds(link, lists[j], contents[j], closed[j]);
    var link', lists' := AppendLink(link, lists[i], lists[j]), lists[i := AppendList(lists[i], lists[j])][j := EMPTY];
    var contents', closed' := contents[i := contents[i] + contents[j]][j := []], closed[i := true][j := false];
    ApartPair(contents, i, j);
    forall k | 0 <= k < |lists'| ensures Holds(link', lists'[k], contents'[k], closed'[k]) {
      assert Holds(link, lists[k], contents[k], closed[k]);
      if k == i {
        AppendOne(link, lists[i], contents[i], closed[i], lists[j], contents[j], closed[j]);
      } else if k != j {
        AppendOther(link, lists, contents, closed, i, j, k);
      }
    }
    AppendQueued(contents, i, j);
    forall e ensures Get(link', e) != Null <==> Queued(contents', e) {
      MemberQueued(contents, i, lists[i].tail);
      MemberQueued(contents, j, lists[j].tail);
    }
  }

  lemma MemberQueued(contents: seq<seq<Elem>>, i: nat, t: Spot)
    requires i < |contents|
    ensures t.Next? && t.e in contents[i] ==> Queued(contents, t.e)
  {
  }

  lemma ApartPair(contents: seq<seq<Elem>>, i: nat, j: nat)
    requires Apart(contents) && i < |contents| && j < |contents| && i != j
    ensures forall e | e in contents[i] :: e !in contents[j]
  {
  }

  lemma AppendOne(link: Links, l: List, s: seq<Elem>, c: bool, m: List, t: seq<Elem>, d: bool)
    requires Holds(link, l, s, c) && Holds(link, m, t, d) && t != [] && (s == [] || c) && forall e | e in s :: e !in t
    ensures m.tail != Head && Holds(AppendLink(link, l, m), AppendList(l, m), s + t, true)
  {
    hide NoDup;
    var link' := AppendLink(link, l, m);
    JoinDistinct(s, t);
    assert t[|t| - 1] in t;
    if s != [] { assert s[|s| - 1] in s; }
    JoinChained(link, link', s, t);
    assert (s + t)[|s + t| - 1] == t[|t| - 1];
  }

  lemma JoinDistinct(s: seq<Elem>, t: seq<Elem>)
    requires NoDup(s) && NoDup(t) && forall e | e in s :: e !in t
    ensures NoDup(s + t)
  {
    forall i, j | 0 <= i < j < |s + t| ensures (s + t)[i] != (s + t)[j] {
      if i < |s| <= j { assert s[i] in s && t[j - |s|] in t; }
    }
  }

  lemma JoinChained(link: Links, link': Links, s: seq<Elem>, t: seq<Elem>)
    requires Chained(link, s) && Chained(link, t) && t != [] && NoDup(s) && NoDup(t)
    requires forall e | e in s && e != s[|s| - 1] :: Get(link', e) == Get(link, e)
    requires forall e | e in t && e != t[|t| - 1] :: Get(link', e) == Get(link, e)
    requires s != [] ==> Get(link', s[|s| - 1]) == To(t[0])
    ensures Chained(link', s + t)
  {
    hide Get;
    var r := s + t;
    forall k | 0 <= k < |r| - 1 ensures Get(link', r[k]) == To(r[k + 1]) {
      if k < |s| {
        assert r[k] == s[k] && s[k] in s;
      } else {
        assert r[k] == t[k - |s|] && t[k - |s|] in t && r[k + 1] == t[k - |s| + 1];
      }
    }
  }

  lemma AppendOther(link: Links, lists: seq<List>, contents: seq<seq<Elem>>, closed: seq<bool>, i: nat, j: nat, k: nat)
    requires |contents| == |closed| == |lists| && Apart(contents) && i < |lists| && j < |lists| && k < |lists| && k != i
    requires k != j
    requires Holds(link, lists[i], contents[i], closed[i]) && Holds(link, lists[j], contents[j], closed[j])
    requires contents[j] != []
    requires Holds(link, lists[k], contents[k], closed[k])
    ensures Holds(AppendLink(link, lists[i], lists[j]), lists[k], contents[k], closed[k])
  {
    ApartPair(contents, k, i);
    ApartPair(contents, k, j);
    if contents[i] != [] { assert contents[i][|contents[i]| - 1] in contents[i]; }
    assert contents[j][|contents[j]| - 1] in contents[j];
    HoldsFrame(link, AppendLink(link, lists[i], lists[j]), lists[k], contents[k], closed[k]);
  }

  lemma AppendQueued(contents: seq<seq<Elem>>, i: nat, j: nat)
    requires Apart(contents) && i < |contents| && j < |contents| && i != j
    ensures var contents' := contents[i := contents[i] + contents[j]][j := []];
            Apart(contents') && forall e :: Queued(contents', e) <==> Queued(contents, e)
  {
    var contents' := contents[i := contents[i] + contents[j]][j := []];
    forall e ensures Queued(contents', e) <==> Queued(contents, e) {
      if k :| 0 <= k < |contents| && e in contents[k] { assert e in contents'[if k == j then i else k]; }
      if k :| 0 <= k < |contents'| && e in contents'[k] { assert e in contents[k] || e in contents[j]; }
    }
  }

  /** Position `k` of a ring of `n`. */
  function Wrap(k: nat, n: nat): nat {
    if k == n then 0 else k
  }

  /** The elements of `done` are unused, all others linked as before. */
  ghost predicate Unlinked(link: Links, link': Links, done: seq<Elem>) {
    forall e :: Get(link', e) == if e in done then Null else Get(link, e)
  }

  lemma RingStart(link: Links, lists: seq<List>, contents: seq<seq<Elem>>, closed: seq<bool>, i: nat)
    requires AllHold(link, lists, contents, closed) && i < |lists| && |contents| == |closed| == |lists| && closed[i]
    ensures Holds(link, lists[i], contents[i], true) && contents[i] != [] && lists[i].head == To(contents[i][0])
  {
    assert Holds(link, lists[i], contents[i], closed[i]);
  }

  lemma RingNext(link: Links, link': Links, l: List, s: seq<Elem>, done: seq<Elem>)
    requires Holds(link, l, s, true) && s != [] && |done| <= |s| && done == s[..|done|] && Unlinked(link, link', done)
    requires done == [] || s[Wrap(|done|, |s|)] != s[0]
    ensures |done| < |s| && Get(link', s[|done|]) == To(s[Wrap(|done| + 1, |s|)])
    ensures Unlinked(link, link'[s[|done|] := Null], done + [s[|done|]]) && done + [s[|done|]] == s[..|done| + 1]
  {
    var k := |done|;
    assert s[k] in s && s[k] !in done;
  }

  lemma RingEnd(s: seq<Elem>, visited: seq<Elem>, n: Ptr)
    requires s != [] && NoDup(s) && |visited| <= |s| && visited == s[..|visited|]
    requires n == (if visited == [] then Null else To(s[Wrap(|visited|, |s|)])) && n == To(s[0])
    ensures visited == s
  {
  }

  lemma ClearAll(link: Links, link': Links, lists: seq<List>, contents: seq<seq<Elem>>, closed: seq<bool>, i: nat)
    requires AllHold(link, lists, contents, closed) && i < |lists| && |contents| == |closed| == |lists|
    requires Unlinked(link, link', contents[i])
    ensures AllHold(link', lists[i := EMPTY], contents[i := []], closed[i := false])
  {
    var lists', contents', closed' := lists[i := EMPTY], contents[i := []], closed[i := false];
    forall k | 0 <= k < |lists'| ensures Holds(link', lists'[k], contents'[k], closed'[k]) {
      assert Holds(link, lists[k], contents[k], closed[k]);
      if k != i {
        ApartPair(contents, k, i);
        HoldsFrame(link, link', lists[k], contents[k], closed[k]);
      }
    }
    forall e ensures Get(link', e) != Null <==> Queued(contents', e) {
      if k :| 0 <= k < |contents| && e in contents[k] && k != i { assert e in contents'[k]; }
    }
  }

  function Joined(link: Links, l: List, e: Elem): Links {
    if l.tail == Head then link[e := InUse] else link[e := InUse][l.tail.e := To(e)]
  }

  function JoinedList(l: List, e: Elem): List {
    List(if l.tail == Head then To(e) else l.head, Next(e), l.count + 1)
  }

  /** The lists hold `contents`, and an element has a non-null `next` exactly if it is queued. */
  ghost predicate AllHold(link: Links, lists: seq<List>, contents: seq<seq<Elem>>, closed: seq<bool>) {
    && |contents| == |closed| == |lists| && Apart(contents)
    && (forall i {:trigger Holds(link, lists[i], contents[i], closed[i])} | 0 <= i < |lists| ::
          Holds(link, lists[i], contents[i], closed[i]))
    && (forall e :: Get(link, e) != Null <==> Queued(contents, e))
  }

  /** An unused element joins the end of list `i`. */
  lemma Enter(link: Links, lists: seq<List>, contents: seq<seq<Elem>>, closed: seq<bool>, i: nat, e: Elem)
    requires AllHold(link, lists, contents, closed) && i < |lists| && !closed[i] && Get(link, e) == Null
    ensures AllHold(Joined(link, lists[i], e), lists[i := JoinedList(lists[i], e)], contents[i := contents[i] + [e]],
                    closed)
    ensures !Queued(contents, e)
  {
    var link', lists', contents' := Joined(link, lists[i], e), lists[i := JoinedList(lists[i], e)],
      contents[i := contents[i] + [e]];
    assert Holds(link, lists[i], contents[i], closed[i]);
    forall j | 0 <= j < |lists'| ensures Holds(link', lists'[j], contents'[j], closed[j]) {
      assert Holds(link, lists[j], contents[j], closed[j]);
      if j == i { EnterOne(link, lists[i], contents[i], e); }
      else { EnterOther(link, lists, contents, closed, i, e, j); }
    }
    EnterQueued(link, lists, contents, closed, i, e);
  }

  lemma EnterOne(link: Links, l: List, s: seq<Elem>, e: Elem)
    requires Holds(link, l, s, false) && Get(link, e) == Null && e !in s
    ensures Holds(Joined(link, l, e), JoinedList(l, e), s + [e], false)
  {
  }

  lemma EnterOther(link: Links, lists: seq<List>, contents: seq<seq<Elem>>, closed: seq<bool>, i: nat, e: Elem, j: nat)
    requires AllHold(link, lists, contents, closed) && i < |lists| && j < |lists| && i != j && Get(link, e) == Null
    requires Holds(link, lists[i], contents[i], closed[i]) && Holds(link, lists[j], contents[j], closed[j])
    ensures Holds(Joined(link, lists[i], e), lists[j], contents[j], closed[j])
  {
    var l := lists[i];
    if l.tail != Head { assert l.tail.e in contents[i]; }
    forall x | x in contents[j] ensures x != e && (l.tail != Head ==> x != l.tail.e) { assert Queued(contents, x); }
    HoldsFrame(link, Joined(link, l, e), lists[j], contents[j], closed[j]);
  }

  lemma EnterQueued(link: Links, lists: seq<List>, contents: seq<seq<Elem>>, closed: seq<bool>, i: nat, e: Elem)
    requires AllHold(link, lists, contents, closed) && i < |lists| && Get(link, e) == Null
    requires Holds(link, lists[i], contents[i], closed[i])
    ensures var contents' := contents[i := contents[i] + [e]];
            Apart(contents') && forall x :: Get(Joined(link, lists[i], e), x) != Null <==> Queued(contents', x)
  {
    var l, contents' := lists[i], contents[i := contents[i] + [e]];
    if l.tail != Head { assert l.tail.e in contents[i]; }
    forall x ensures Queued(contents', x) <==> Queued(contents, x) || x == e {
      if Queued(contents, x) {
        var k :| 0 <= k < |contents| && x in contents[k];
        assert x in contents'[k];
      }
      assert e in contents'[i];
    }
    if l.tail != Head { assert Queued(contents, l.tail.e); }
    forall a, b, x | 0 <= a < |contents'| && 0 <= b < |contents'| && x in contents'[a] && x in contents'[b]
      ensures a == b
    {
      if x == e { assert !Queued(contents, e); }
    }
  }

  /** The last element of the list enqueued again. */
  lemma Again(link: Links, lists: seq<List>, contents: seq<seq<Elem>>, closed: seq<bool>, i: nat, e: Elem)
    requires AllHold(link, lists, contents, closed) && i < |lists| && !closed[i] && lists[i].tail == Next(e)
    requires Get(link, e) == InUse
    ensures AllHold(link[e := To(e)], lists[i := lists[i].(count := lists[i].count + 1)], contents, closed)
    ensures Queued(contents, e)
  {
    var link', lists' := link[e := To(e)], lists[i := lists[i].(count := lists[i].count + 1)];
    assert Holds(link, lists[i], contents[i], closed[i]);
    assert e in contents[i];
    forall j | 0 <= j < |lists'| ensures Holds(link', lists'[j], contents[j], closed[j]) {
      assert Holds(link, lists[j], contents[j], closed[j]);
      if j != i { HoldsFrame(link, link', lists[j], contents[j], closed[j]); }
    }
  }
}
