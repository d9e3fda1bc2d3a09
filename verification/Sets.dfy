/** Sets as nil-terminated vectors of cells, changed in place. */
module Sets {

  /** The vector holds exactly these elements, in this order, then nil: none twice, none nil. */
  ghost predicate Holds(a: array<int>, s: seq<int>)
    reads a
  {
    && |s| < a.Length && a[..|s|] == s && a[|s|] == 0 && 0 !in s
    && forall i, j :: 0 <= i < j < |s| ==> s[i] != s[j]
  }

  function Elements(s: seq<int>): set<int> { set x | x in s }

  function Added(s: seq<int>, e: int): seq<int> { if e in s then s else s + [e] }

  function Removed(s: seq<int>, e: int): (r: seq<int>)
    ensures |r| <= |s|
  {
    if s == [] then [] else if s[0] == e then s[1..] else [s[0]] + Removed(s[1..], e)
  }

  /** The elements of `t` added one by one. */
  function AddedAll(s: seq<int>, t: seq<int>): seq<int>
    decreases |t|
  {
    if t == [] then s else AddedAll(Added(s, t[0]), t[1..])
  }

  function Common(s: seq<int>, t: seq<int>): seq<int> {
    if s == [] then [] else if s[0] in t then [s[0]] + Common(s[1..], t) else Common(s[1..], t)
  }

  // ----- they are the operations on sets -----

  lemma {:induction false} RemovedElements(s: seq<int>, e: int)
    requires forall i, j :: 0 <= i < j < |s| ==> s[i] != s[j]
    ensures Elements(Removed(s, e)) == Elements(s) - {e}
    ensures var r := Removed(s, e); forall i, j :: 0 <= i < j < |r| ==> r[i] != r[j]
  {
    if s != [] {
      RemovedElements(s[1..], e);
      assert s == [s[0]] + s[1..];
      var t := Removed(s[1..], e);
      assert forall x :: x in t <==> x in Elements(t);
      assert forall x :: x in s[1..] <==> x in Elements(s[1..]);
      if s[0] != e { assert s[0] !in t; }
    }
  }

  lemma {:induction false} AddedAllElements(s: seq<int>, t: seq<int>)
    ensures Elements(AddedAll(s, t)) == Elements(s) + Elements(t)
    decreases |t|
  {
    if t != [] {
      AddedAllElements(Added(s, t[0]), t[1..]);
      assert t == [t[0]] + t[1..];
      assert Elements(Added(s, t[0])) == Elements(s) + {t[0]};
    }
  }

  lemma {:induction false} CommonElements(s: seq<int>, t: seq<int>)
    ensures Elements(Common(s, t)) == Elements(s) * Elements(t)
  {
    if s != [] {
      CommonElements(s[1..], t);
      assert s == [s[0]] + s[1..];
      assert Elements(s) == {s[0]} + Elements(s[1..]);
      var c := Common(s[1..], t);
      assert Elements([s[0]] + c) == {s[0]} + Elements(c);
    }
  }

  // ----- the words -----

  /** `search-set`: the element's place, or the place of the terminating nil. */
  method SearchSet(a: array<int>, e: int, ghost s: seq<int>) returns (p: nat, found: bool)
    requires Holds(a, s)
    ensures found <==> e in s
    ensures if found then p < |s| && s[p] == e && e !in s[..p] else p == |s|
  {
    p := 0;
    while a[p] != 0
      invariant 0 <= p <= |s| && e !in s[..p]
      decreases |s| - p
    {
      assert p < |s|;
      if a[p] == e { return p, true; }
      p := p + 1;
    }
    assert forall i :: 0 <= i < |s| ==> s[i] in s && a[i] == s[i];
    found := false;
  }

  /** `add-set`; nil is no element, and adding it changes nothing. */
  method AddSet(a: array<int>, e: int, ghost s: seq<int>)
    requires Holds(a, s) && (e in s || |s| + 1 < a.Length)
    modifies a
    ensures Holds(a, if e == 0 then s else Added(s, e))
  {
    var p, found := SearchSet(a, e, s);
    if !found {
      a[p + 1] := 0;
      a[p] := e;
      assert a[..|s|] == s;
      assert a[..|s| + 1] == s + [e];
    }
  }

  /** The shifting loop of `remove-set` and `intersection-set`. */
  method CloseUp(a: array<int>, at: nat, ghost s: seq<int>)
    requires Holds(a, s) && at < |s|
    modifies a
    ensures Holds(a, s[..at] + s[at + 1..])
  {
    var p := at;
    ghost var r := s[..at] + s[at + 1..];
    var last := false;
    while !last
      invariant at <= p <= |s| && (last <==> p == |s|)
      invariant forall i :: 0 <= i < p && i < |s| - 1 ==> a[i] == r[i]
      invariant p == |s| ==> a[|s| - 1] == 0
      invariant forall i :: p <= i < |s| ==> a[i] == s[i]
      invariant a[|s|] == 0
      decreases |s| - p
    {
      var next := a[p + 1];
      assert p + 1 < |s| ==> next == s[p + 1] && s[p + 1] in s;
      last := next == 0;
      a[p] := next;
      p := p + 1;
    }
    assert a[..|r|] == r;
    assert forall x :: x in r ==> x in s;
  }

  lemma {:induction false} RemovedAt(s: seq<int>, e: int, p: nat)
    requires p < |s| && s[p] == e && e !in s[..p]
    ensures Removed(s, e) == s[..p] + s[p + 1..]
  {
    if p > 0 {
      assert s[0] in s[..p];
      assert s[1..][..p - 1] == s[1..p];
      RemovedAt(s[1..], e, p - 1);
    }
  }

  lemma {:induction false} RemovedNone(s: seq<int>, e: int)
    requires e !in s
    ensures Removed(s, e) == s
  {
    if s != [] { RemovedNone(s[1..], e); }
  }

  /** `remove-set` */
  method RemoveSet(a: array<int>, e: int, ghost s: seq<int>)
    requires Holds(a, s)
    modifies a
    ensures Holds(a, Removed(s, e))
  {
    var p, found := SearchSet(a, e, s);
    if found {
      RemovedAt(s, e, p);
      CloseUp(a, p, s);
    } else {
      RemovedNone(s, e);
    }
  }

  lemma {:induction false} AddedAllGrows(s: seq<int>, t: seq<int>)
    ensures |s| <= |AddedAll(s, t)|
    decreases |t|
  {
    if t != [] { AddedAllGrows(Added(s, t[0]), t[1..]); }
  }

  /** Where the loop below stands after one more element. */
  lemma {:induction false} AddedStep(u: seq<int>, s: seq<int>, p: nat)
    requires p < |s|
    ensures AddedAll(u, s[p..]) == AddedAll(Added(u, s[p]), s[p + 1..])
    ensures |Added(u, s[p])| <= |AddedAll(u, s[p..])|
  {
    assert s[p..][1..] == s[p + 1..];
    AddedAllGrows(Added(u, s[p]), s[p + 1..]);
  }

  /** `union-set`: the first set's elements are added to the second, which has room for the
      union. */
  method UnionSet(a: array<int>, b: array<int>, ghost s: seq<int>, ghost t: seq<int>)
    requires Holds(a, s) && Holds(b, t) && a != b && |AddedAll(t, s)| < b.Length
    modifies b
    ensures Holds(a, s) && Holds(b, AddedAll(t, s))
  {
    var p := 0;
    ghost var u := t;
    while a[p] != 0
      invariant 0 <= p <= |s| && Holds(a, s) && Holds(b, u)
      invariant AddedAll(t, s) == AddedAll(u, s[p..])
      decreases |s| - p
    {
      assert p < |s| && s[p] in s;
      AddedStep(u, s, p);
      hide AddedAll;
      AddSet(b, a[p], u);
      u := Added(u, s[p]);
      p := p + 1;
    }
    assert forall i :: 0 <= i < |s| ==> s[i] in s && a[i] == s[i];
  }

  /** Where the loop below stands after one more element. */
  lemma {:induction false} CommonStep(u: seq<int>, p: nat, s: seq<int>)
    requires p < |u|
    ensures u[p] in s ==> u[..p] + Common(u[p..], s) == u[..p + 1] + Common(u[p + 1..], s)
    ensures u[p] !in s ==>
              var v := u[..p] + u[p + 1..]; u[..p] + Common(u[p..], s) == v[..p] + Common(v[p..], s)
  {
    assert u[p..][1..] == u[p + 1..];
    var v := u[..p] + u[p + 1..];
    assert v[..p] == u[..p] && v[p..] == u[p + 1..];
    assert u[..p] + [u[p]] == u[..p + 1];
  }

  /** `intersection-set`: what the first set lacks is removed from the second. */
  method IntersectionSet(a: array<int>, b: array<int>, ghost s: seq<int>, ghost t: seq<int>)
    requires Holds(a, s) && Holds(b, t) && a != b
    modifies b
    ensures Holds(a, s) && Holds(b, Common(t, s))
  {
    var p := 0;
    ghost var u := t;
    while b[p] != 0
      invariant 0 <= p <= |u| && Holds(a, s) && Holds(b, u)
      invariant Common(t, s) == u[..p] + Common(u[p..], s)
      decreases |u| - p
    {
      assert p < |u| && b[p] == u[p];
      CommonStep(u, p, s);
      hide Common;
      var q, found := SearchSet(a, b[p], s);
      if found {
        p := p + 1;
      } else {
        CloseUp(b, p, u);
        u := u[..p] + u[p + 1..];
      }
    }
    assert forall i :: 0 <= i < |u| ==> u[i] in u && b[i] == u[i];
    assert u[..p] == u;
  }
}
