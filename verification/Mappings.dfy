/** Mappings as vectors of domain and range cells that end with a pair of zeros, changed in
    place. */
module Mappings {
  datatype Pair = Pair(domain: int, range: int)

  const ZEROS := Pair(0, 0)

  /** The vector holds these pairs, then two zeros; no domain twice, no pair of zeros
      among them. */
  ghost predicate Holds(a: array<int>, s: seq<Pair>)
    reads a
  {
    && 2 * |s| + 2 <= a.Length && a[2 * |s|] == 0 && a[2 * |s| + 1] == 0
    && (forall k :: 0 <= k < |s| ==> PairAt(a, k, s[k])) && Distinct(s)
  }

  predicate PairAt(a: array<int>, k: nat, p: Pair)
    requires 2 * k + 2 <= a.Length
    reads a
  {
    a[2 * k] == p.domain && a[2 * k + 1] == p.range
  }

  predicate Distinct(s: seq<Pair>) {
    && (forall k :: 0 <= k < |s| ==> s[k] != ZEROS)
    && forall j, k :: 0 <= j < k < |s| ==> s[j].domain != s[k].domain
  }

  function AsMap(s: seq<Pair>): map<int, int> {
    if s == [] then map[] else AsMap(s[1..])[s[0].domain := s[0].range]
  }

  function Place(s: seq<Pair>, d: int): (k: nat)
    ensures k <= |s| && (k < |s| ==> s[k].domain == d)
    ensures forall j :: 0 <= j < k ==> s[j].domain != d
  {
    if s == [] || s[0].domain == d then 0 else 1 + Place(s[1..], d)
  }

  function Updated(s: seq<Pair>, d: int, r: int): seq<Pair> {
    var k := Place(s, d);
    if k < |s| then s[k := Pair(d, r)] else s + [Pair(d, r)]
  }

  function Removed(s: seq<Pair>, d: int): seq<Pair> {
    var k := Place(s, d);
    if k < |s| then s[..k] + s[k + 1..] else s
  }

  /** The vector operations are update, deletion and lookup of a finite map. */
  lemma {:induction false} MapOperations(s: seq<Pair>, d: int, r: int)
    requires Distinct(s)
    ensures AsMap(Updated(s, d, r)) == AsMap(s)[d := r]
    ensures AsMap(Removed(s, d)) == AsMap(s) - {d}
    ensures d in AsMap(s) <==> Place(s, d) < |s|
    ensures d in AsMap(s) ==> AsMap(s)[d] == s[Place(s, d)].range
  {
    hide *;
    UpdatedMap(s, d, r);
    RemovedMap(s, d);
    LookedUp(s, d);
  }

  lemma {:induction false} LookedUp(s: seq<Pair>, d: int)
    ensures d in AsMap(s) <==> Place(s, d) < |s|
    ensures d in AsMap(s) ==> AsMap(s)[d] == s[Place(s, d)].range
  {
    if s != [] { LookedUp(s[1..], d); }
  }

  lemma {:induction false} UpdatedMap(s: seq<Pair>, d: int, r: int)
    ensures AsMap(Updated(s, d, r)) == AsMap(s)[d := r]
  {
    if s == [] {
      assert ([] + [Pair(d, r)])[1..] == [];
    } else if s[0].domain == d {
      assert s[0 := Pair(d, r)][1..] == s[1..];
    } else {
      UpdatedMap(s[1..], d, r);
      UpdatedRest(s, d, r);
      var u := Updated(s[1..], d, r);
      hide Updated, Place;
      assert ([s[0]] + u)[1..] == u;
    }
  }

  lemma {:induction false} UpdatedRest(s: seq<Pair>, d: int, r: int)
    requires s != [] && s[0].domain != d
    ensures Updated(s, d, r) == [s[0]] + Updated(s[1..], d, r)
    ensures Removed(s, d) == [s[0]] + Removed(s[1..], d)
  {}

  lemma {:induction false} RemovedMap(s: seq<Pair>, d: int)
    requires Distinct(s)
    ensures AsMap(Removed(s, d)) == AsMap(s) - {d}
  {
    if s == [] {
    } else if s[0].domain == d {
      assert s[..0] + s[1..] == s[1..];
      AbsentBelow(s[1..], d);
    } else {
      RemovedMap(s[1..], d);
      UpdatedRest(s, d, 0);
      var u := Removed(s[1..], d);
      hide Removed, Place, Updated;
      assert ([s[0]] + u)[1..] == u;
    }
  }

  lemma {:induction false} AbsentBelow(s: seq<Pair>, d: int)
    requires forall k :: 0 <= k < |s| ==> s[k].domain != d
    ensures d !in AsMap(s)
  {
    if s != [] { AbsentBelow(s[1..], d); }
  }

  lemma {:induction false} StillDistinct(s: seq<Pair>, d: int, r: int)
    requires Distinct(s)
    ensures Pair(d, r) != ZEROS ==> Distinct(Updated(s, d, r))
    ensures Distinct(s[..Place(s, d)])
    ensures Distinct(Removed(s, d))
  {
    var k, u, v := Place(s, d), Updated(s, d, r), Removed(s, d);
    assert k < |s| ==> forall j :: 0 <= j < |v| ==> v[j] == s[if j < k then j else j + 1];
    hide Place;
  }

  // ----- the words -----

  /** `search-mapping`: the place of the domain's pair, or of the final zeros. */
  method SearchMapping(a: array<int>, d: int, ghost s: seq<Pair>) returns (p: nat, found: bool)
    requires Holds(a, s)
    ensures p == 2 * Place(s, d) && (found <==> Place(s, d) < |s|)
  {
    p := 0;
    ghost var k := 0;
    while a[p] != 0 || a[p + 1] != 0
      invariant 0 <= k <= |s| && p == 2 * k && Place(s, d) == k + Place(s[k..], d)
      decreases |s| - k
    {
      assert PairAt(a, k, s[k]);
      if a[p] == d { return p, true; }
      assert s[k..][1..] == s[k + 1..];
      p := p + 2;
      k := k + 1;
    }
    assert forall j :: 0 <= j < |s| ==> PairAt(a, j, s[j]) && s[j] != ZEROS;
    found := false;
  }

  /** What `add-mapping` makes of the pairs. A pair of zeros is a terminator: stored over the
      domain zero it cuts off the pairs after it, and elsewhere it changes nothing. */
  function Stored(s: seq<Pair>, d: int, r: int): seq<Pair> {
    if Pair(d, r) == ZEROS then s[..Place(s, d)] else Updated(s, d, r)
  }

  /** The map gets the pair exactly when that is not a pair of zeros. */
  lemma {:induction false} StoredIffNotZeros(s: seq<Pair>, d: int, r: int)
    requires Distinct(s)
    ensures AsMap(Stored(s, d, r)) == AsMap(s)[d := r] <==> d != 0 || r != 0
  {
    MapOperations(s, d, r);
    AbsentBelow(s[..Place(s, d)], d);
  }

  /** A mapping that loses its second pair to a pair of zeros. */
  lemma {:induction false} ZerosLosePairs()
    ensures var s := [Pair(0, 5), Pair(1, 2)]; Distinct(s) && Stored(s, 0, 0) == [] && 1 in AsMap(s)
  {
    var s := [Pair(0, 5), Pair(1, 2)];
    assert s[1..] == [Pair(1, 2)] && [Pair(1, 2)][1..] == [];
    assert AsMap([Pair(1, 2)]) == map[1 := 2];
  }

  /** `add-mapping`: replace the range, or append the pair and new zeros after it. */
  method AddMapping(a: array<int>, r: int, d: int, ghost s: seq<Pair>)
    requires Holds(a, s) && (d in AsMap(s) || 2 * |s| + 4 <= a.Length)
    modifies a
    ensures Holds(a, Stored(s, d, r))
  {
    LookedUp(s, d);
    StillDistinct(s, d, r);
    var p, found := SearchMapping(a, d, s);
    ghost var k, u := Place(s, d), Updated(s, d, r);
    ghost var t := Stored(s, d, r);
    assert |u| == (if found then |s| else |s| + 1);
    assert forall j :: 0 <= j < |s| && j != k ==> u[j] == s[j];
    assert u[k] == Pair(d, r) && t == if Pair(d, r) == ZEROS then s[..k] else u;
    hide Updated, Place, AsMap, Distinct, Stored;
    if found {
      a[p + 1] := r;
    } else {
      a[p + 2], a[p + 3] := 0, 0;
      a[p], a[p + 1] := d, r;
    }
    forall j | 0 <= j < |t| ensures PairAt(a, j, t[j]) {
      if j < |s| { assert old(PairAt(a, j, s[j])); }
    }
  }

  /** `remove-mapping`: the pairs after it move down, the final zeros with them. */
  method RemoveMapping(a: array<int>, d: int, ghost s: seq<Pair>)
    requires Holds(a, s)
    modifies a
    ensures Holds(a, Removed(s, d))
  {
    var p, found := SearchMapping(a, d, s);
    StillDistinct(s, d, 0);
    if found { MoveDown(a, p, Place(s, d), s); }
  }

  /** The loop of `remove-mapping`. */
  method MoveDown(a: array<int>, at: nat, ghost place: nat, ghost s: seq<Pair>)
    requires Holds(a, s) && place < |s| && at == 2 * place && Distinct(s[..place] + s[place + 1..])
    modifies a
    ensures Holds(a, s[..place] + s[place + 1..])
  {
    ghost var r := s[..place] + s[place + 1..];
    var p := at;
    ghost var k := place;
    var last := false;
    assert forall j :: 0 <= j < |s| ==> s[j] != ZEROS;
    hide Distinct;
    while !last
      invariant place <= k <= |s| && p == 2 * k && (last <==> k == |s|)
      invariant forall j :: 0 <= j < k && j < |r| ==> PairAt(a, j, r[j])
      invariant k == |s| ==> a[2 * |r|] == 0 && a[2 * |r| + 1] == 0
      invariant forall j :: k <= j < |s| ==> PairAt(a, j, s[j])
      invariant a[2 * |s|] == 0 && a[2 * |s| + 1] == 0
      decreases |s| - k
    {
      var x, y := a[p + 2], a[p + 3];
      if k + 1 < |s| { assert PairAt(a, k + 1, s[k + 1]) && r[k] == s[k + 1] && Pair(x, y) != ZEROS; }
      last := x == 0 && y == 0;
      label before:
      a[p], a[p + 1] := x, y;
      forall j | k < j < |s| ensures PairAt(a, j, s[j]) { assert old@before(PairAt(a, j, s[j])); }
      forall j | 0 <= j < k && j < |r| ensures PairAt(a, j, r[j]) { assert old@before(PairAt(a, j, r[j])); }
      p := p + 2;
      k := k + 1;
    }
  }

  /** `range-mapping`: where the range of the domain is, if it has one. */
  method RangeMapping(a: array<int>, d: int, ghost s: seq<Pair>) returns (p: nat, found: bool)
    requires Holds(a, s)
    ensures found <==> d in AsMap(s)
    ensures found ==> p < a.Length && a[p] == AsMap(s)[d]
  {
    LookedUp(s, d);
    p, found := SearchMapping(a, d, s);
    if found {
      assert PairAt(a, Place(s, d), s[Place(s, d)]);
      p := p + 1;
    }
  }
}
