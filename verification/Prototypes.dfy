/** Relations as association lists on items, and delegation along the inheritance relation. */
module Prototypes {
  import opened Options

  /** Items and relations are addresses; nil is 0. */
  datatype Association = Association(relation: int, value: int)

  const NIL: int := 0

  /** `associate`: the place of the relation's cell in the list, if any. */
  function Associate(list: seq<Association>, relation: int): (k: Opt<nat>)
    ensures k.Some? ==> k.val < |list| && list[k.val].relation == relation
  {
    if list == [] then None
    else if list[0].relation == relation then Some(0)
    else var k := Associate(list[1..], relation); if k.Some? then Some(k.val + 1) else None
  }

  function Lookup(list: seq<Association>, relation: int): Opt<int> {
    var k := Associate(list, relation);
    if k.Some? then Some(list[k.val].value) else None
  }

  /** `put-relation` on the list: change the value in place, or a new cell in front. */
  function Put(list: seq<Association>, relation: int, value: int): seq<Association> {
    var k := Associate(list, relation);
    if k.Some? then list[k.val := Association(relation, value)] else [Association(relation, value)] + list
  }

  /** A put alters its own pair only. */
  lemma {:induction false} PutLookup(list: seq<Association>, relation: int, value: int, r: int)
    ensures Lookup(Put(list, relation, value), r) == if r == relation then Some(value) else Lookup(list, r)
  {
    if Associate(list, relation).Some? {
      InPlace(list, relation, value, r);
    } else {
      assert ([Association(relation, value)] + list)[1..] == list;
    }
  }

  lemma {:induction false} InPlace(list: seq<Association>, relation: int, value: int, r: int)
    requires Associate(list, relation).Some?
    ensures Lookup(list[Associate(list, relation).val := Association(relation, value)], r) ==
            if r == relation then Some(value) else Lookup(list, r)
  {
    var k := Associate(list, relation).val;
    if k > 0 {
      assert list[k := Association(relation, value)][1..] == list[1..][k - 1 := Association(relation, value)];
      InPlace(list[1..], relation, value, r);
    }
  }

  /** Every prototype has a parent or nil, and parents rank below. */
  ghost predicate Rooted(items: map<int, seq<Association>>, inherits: int, rank: int -> nat) {
    forall p :: p in items ==>
      p != NIL && Lookup(items[p], inherits).Some? &&
      var q := Lookup(items[p], inherits).val; q != NIL ==> q in items && rank(q) < rank(p)
  }

  /** The prototype and its ancestors, nearest first. */
  ghost function Ancestors(items: map<int, seq<Association>>, inherits: int, rank: int -> nat, p: int): (a: seq<int>)
    requires Rooted(items, inherits, rank) && (p == NIL || p in items)
    ensures forall i :: 0 <= i < |a| ==> a[i] in items
    decreases if p == NIL then 0 else rank(p) + 1
  {
    if p == NIL then []
    else [p] + Ancestors(items, inherits, rank, Lookup(items[p], inherits).val)
  }

  class Relations {
    var items: map<int, seq<Association>>
    const inherits: int

    constructor (inherits: int)
      ensures items == map[] && this.inherits == inherits
    {
      items := map[];
      this.inherits := inherits;
    }

    /** `?get-relation` */
    method GetRelation(relation: int, item: int) returns (value: Opt<int>)
      requires item in items
      ensures value == Lookup(items[item], relation)
    {
      var list := items[item];
      var k := 0;
      while k < |list| && list[k].relation != relation
        invariant 0 <= k <= |list| && Lookup(list, relation) == Lookup(list[k..], relation)
      {
        assert list[k..][1..] == list[k + 1..];
        k := k + 1;
      }
      value := if k < |list| then Some(list[k].value) else None;
    }

    /** `put-relation` */
    method PutRelation(value: int, relation: int, item: int)
      requires item in items
      modifies this`items
      ensures items == old(items)[item := Put(old(items[item]), relation, value)]
      ensures forall i, r :: i in items ==>
                Lookup(items[i], r) == if i == item && r == relation then Some(value) else Lookup(old(items)[i], r)
    {
      forall r ensures Lookup(Put(items[item], relation, value), r) ==
                       if r == relation then Some(value) else Lookup(items[item], r)
      {
        PutLookup(items[item], relation, value, r);
      }
      items := items[item := Put(items[item], relation, value)];
    }

    /** `delegate`: the value of the nearest ancestor that has the relation. */
    method Delegate(relation: int, prototype: int, ghost rank: int -> nat) returns (value: Opt<int>)
      requires prototype in items && Rooted(items, inherits, rank)
      ensures var a := Ancestors(items, inherits, rank, prototype);
              if value.None? then forall i :: 0 <= i < |a| ==> Lookup(items[a[i]], relation) == None
              else exists k :: 0 <= k < |a| && Lookup(items[a[k]], relation) == value &&
                               forall i :: 0 <= i < k ==> Lookup(items[a[i]], relation) == None
    {
      ghost var a := Ancestors(items, inherits, rank, prototype);
      ghost var k := 0;
      var p := prototype;
      while p != NIL
        invariant 0 <= k <= |a| && (p == NIL || p in items)
        invariant a[k..] == Ancestors(items, inherits, rank, p)
        invariant forall i :: 0 <= i < k ==> Lookup(items[a[i]], relation) == None
        decreases |a| - k
      {
        assert a[k] == a[k..][0] == p && a[k..][1..] == a[k + 1..];
        value := GetRelation(relation, p);
        if value.Some? { return; }
        var parent := GetRelation(inherits, p);
        p := parent.val;
        k := k + 1;
      }
      value := None;
    }
  }
}
