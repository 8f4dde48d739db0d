/** Circular doubly linked lists, as `next` and `prev` pointers over nodes of type `T`. */
module Rings {

  function After(i: nat, n: nat): nat
    requires i < n
  {
    if i + 1 == n then 0 else i + 1
  }

  ghost predicate NoDup<T>(r: seq<T>) {
    forall i, j | 0 <= i < j < |r| :: r[i] != r[j]
  }

  /** Following the pointers from `r[0]` visits exactly `r`, in both directions. */
  ghost predicate IsRing<T>(next: map<T, T>, prev: map<T, T>, r: seq<T>) {
    && |r| >= 1 && NoDup(r)
    && (forall i {:trigger LinkedAt(next, prev, r, i)} | 0 <= i < |r| :: LinkedAt(next, prev, r, i))
  }

  /** Node `i` and its successor point to each other. */
  ghost predicate LinkedAt<T>(next: map<T, T>, prev: map<T, T>, r: seq<T>, i: int)
    requires 0 <= i < |r|
  {
    var a, b := r[i], r[After(i, |r|)];
    a in next && b in prev && next[a] == b && prev[b] == a
  }

  function Without<T>(r: seq<T>, i: nat): seq<T>
    requires i < |r|
  {
    r[..i] + r[i + 1..]
  }

  function With<T>(r: seq<T>, i: nat, x: T): seq<T>
    requires i <= |r|
  {
    r[..i] + [x] + r[i..]
  }

  /** Rings that share no pointer that changed stay rings. */
  lemma RingFrame<T>(next: map<T, T>, prev: map<T, T>, next': map<T, T>, prev': map<T, T>, r: seq<T>)
    requires IsRing(next, prev, r)
    requires forall x | x in r ::
             x in next && x in next' && next'[x] == next[x] && x in prev && x in prev' && prev'[x] == prev[x]
    ensures IsRing(next', prev', r)
  {
    forall i | 0 <= i < |r| ensures LinkedAt(next', prev', r, i) { assert LinkedAt(next, prev, r, i); }
  }

  /** Neighbours of a node. */
  lemma Neighbours<T>(next: map<T, T>, prev: map<T, T>, r: seq<T>, i: nat)
    requires IsRing(next, prev, r) && i < |r|
    ensures r[i] in next && r[i] in prev
    ensures next[r[i]] == r[After(i, |r|)]
    ensures prev[r[i]] == r[if i == 0 then |r| - 1 else i - 1]
  {
    var j := if i == 0 then |r| - 1 else i - 1;
    assert LinkedAt(next, prev, r, i) && LinkedAt(next, prev, r, j);
  }

  /** Every node has its pointers. */
  lemma RingKeys<T>(next: map<T, T>, prev: map<T, T>, r: seq<T>)
    requires IsRing(next, prev, r)
    ensures forall x | x in r :: x in next && x in prev
  {
    forall x | x in r ensures x in next && x in prev {
      var i :| 0 <= i < |r| && r[i] == x;
      Neighbours(next, prev, r, i);
    }
  }

  /** Unlinking a node other than the first: its neighbours point past it. */
  lemma Unlink<T>(next: map<T, T>, prev: map<T, T>, r: seq<T>, i: nat)
    requires IsRing(next, prev, r) && 0 < i < |r|
    ensures r[i] in prev && r[i] in next && prev[r[i]] in next && next[r[i]] in prev
    ensures IsRing(next[prev[r[i]] := next[r[i]]], prev[next[r[i]] := prev[r[i]]], Without(r, i))
  {
    var n, x := |r|, r[i];
    Neighbours(next, prev, r, i);
    var next', prev', r' := next[prev[x] := next[x]], prev[next[x] := prev[x]], Without(r, i);
    WithoutMembers(r, i);
    forall j | 0 <= j < |r'|
      ensures LinkedAt(next', prev', r', j)
    {
      var k := if j < i then j else j + 1;
      var m := if After(k, n) == i then After(i, n) else After(k, n);
      assert r'[j] == r[k] && r'[After(j, |r'|)] == r[m];
      assert LinkedAt(next, prev, r, k);
    }
    assert LinkedAt(next, prev, r, i - 1) && LinkedAt(next, prev, r, i);
  }

  /** Unlinking the first of several nodes. */
  lemma UnlinkFirst<T>(next: map<T, T>, prev: map<T, T>, r: seq<T>)
    requires IsRing(next, prev, r) && 2 <= |r|
    ensures r[0] in prev && r[0] in next && prev[r[0]] in next && next[r[0]] in prev
    ensures IsRing(next[prev[r[0]] := next[r[0]]], prev[next[r[0]] := prev[r[0]]], r[1..])
  {
    var n, x := |r|, r[0];
    Neighbours(next, prev, r, 0);
    var next', prev', r' := next[prev[x] := next[x]], prev[next[x] := prev[x]], r[1..];
    forall j | 0 <= j < |r'|
      ensures LinkedAt(next', prev', r', j)
    {
      assert LinkedAt(next, prev, r, j + 1);
    }
    assert LinkedAt(next, prev, r, 0) && LinkedAt(next, prev, r, n - 1);
  }

  /** Unlinking any of several nodes. */
  lemma UnlinkAny<T>(next: map<T, T>, prev: map<T, T>, r: seq<T>, i: nat)
    requires IsRing(next, prev, r) && 2 <= |r| && i < |r|
    ensures r[i] in prev && r[i] in next && prev[r[i]] in next && next[r[i]] in prev
    ensures IsRing(next[prev[r[i]] := next[r[i]]], prev[next[r[i]] := prev[r[i]]], Without(r, i))
  {
    hide IsRing;
    if i == 0 {
      UnlinkFirst(next, prev, r);
      assert Without(r, 0) == r[1..];
    } else {
      Unlink(next, prev, r, i);
    }
  }

  /** Linking a new node in behind position `i`. */
  lemma LinkAfter<T>(next: map<T, T>, prev: map<T, T>, r: seq<T>, i: nat, x: T)
    requires IsRing(next, prev, r) && i < |r| && x !in r
    ensures r[i] in next && next[r[i]] in prev
    ensures IsRing(next[x := next[r[i]]][r[i] := x], prev[x := r[i]][next[r[i]] := x], With(r, i + 1, x))
  {
    var n := |r|;
    assert LinkedAt(next, prev, r, i);
    var next', prev', r' := next[x := next[r[i]]][r[i] := x], prev[x := r[i]][next[r[i]] := x], With(r, i + 1, x);
    WithMembers(r, i + 1, x);
    forall j | 0 <= j < |r'|
      ensures LinkedAt(next', prev', r', j)
    {
      if j == i {
        assert r'[After(j, n + 1)] == x;
      } else if j == i + 1 {
        assert r'[After(j, n + 1)] == r[After(i, n)];
      } else {
        var k := if j < i then j else j - 1;
        assert r'[j] == r[k] && r'[After(j, n + 1)] == r[After(k, n)];
        assert LinkedAt(next, prev, r, k);
      }
    }
  }

  /** Linking a new node in behind the last one. */
  lemma LinkLast<T>(next: map<T, T>, prev: map<T, T>, r: seq<T>, x: T)
    requires r != [] && IsRing(next, prev, r) && x !in r
    ensures var h := r[0];
            && h in prev && prev[h] in next && prev[h] == r[|r| - 1]
            && IsRing(next[x := h][prev[h] := x], prev[x := prev[h]][h := x], r + [x])
  {
    hide IsRing;
    var i: nat := |r| - 1;
    Neighbours(next, prev, r, 0);
    Neighbours(next, prev, r, i);
    LinkAfter(next, prev, r, i, x);
    assert With(r, i + 1, x) == r + [x];
  }

  lemma WithoutMembers<T>(r: seq<T>, i: nat)
    requires i < |r| && NoDup(r)
    ensures NoDup(Without(r, i))
    ensures forall x :: x in Without(r, i) <==> x in r && x != r[i]
  {
    forall x | x in r && x != r[i]
      ensures x in Without(r, i)
    {
      var j :| 0 <= j < |r| && r[j] == x;
      assert Without(r, i)[if j < i then j else j - 1] == x;
    }
  }

  lemma WithMembers<T>(r: seq<T>, i: nat, x: T)
    requires i <= |r| && NoDup(r) && x !in r
    ensures NoDup(With(r, i, x))
    ensures forall y :: y in With(r, i, x) <==> y in r || y == x
  {
    forall y | y in r
      ensures y in With(r, i, x)
    {
      var j :| 0 <= j < |r| && r[j] == y;
      assert With(r, i, x)[if j < i then j else j + 1] == y;
    }
    assert With(r, i, x)[i] == x;
  }
}
