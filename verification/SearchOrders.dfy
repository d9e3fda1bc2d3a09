/** What the words on the search order mean for later searches and definitions, said of
    entries, vocabularies and places. */
module SearchOrders {
  import opened Options
  import opened Lookup

  /** The entry at place `k` of the vocabulary at place `i` of the search order. */
  ghost predicate At(vocs: seq<seq<Id>>, context: seq<VocId>, i: int, k: int) {
    0 <= i < |context| && context[i] < |vocs| && 0 <= k < |vocs[context[i]]|
  }

  /** The entry has that name and is not hidden. */
  predicate Ours(heap: seq<Entry>, e: Id, name: string) {
    e < |heap| && heap[e].name == name && heap[e].mode != Hidden
  }

  ghost predicate Named(heap: seq<Entry>, vocs: seq<seq<Id>>, context: seq<VocId>, i: int, k: int, name: string)
    requires At(vocs, context, i, k)
  {
    Ours(heap, vocs[context[i]][k], name)
  }

  /** And none in an earlier vocabulary, or newer in its own, is. */
  ghost predicate Foremost(heap: seq<Entry>, vocs: seq<seq<Id>>, context: seq<VocId>, i: int, k: int, name: string) {
    && At(vocs, context, i, k) && Named(heap, vocs, context, i, k, name)
    && forall i', k' :: At(vocs, context, i', k') && (i' < i || (i' == i && k' < k)) ==>
         !Named(heap, vocs, context, i', k', name)
  }

  lemma {:induction false} ChainFirst(heap: seq<Entry>, chain: seq<Id>, name: string) returns (k: nat)
    ensures k <= |chain| && Search(heap, chain, name) == if k < |chain| then Some(chain[k]) else None
    ensures forall j :: 0 <= j < k ==> !Ours(heap, chain[j], name)
    ensures k < |chain| ==> Ours(heap, chain[k], name)
  {
    if chain == [] || Matches(heap, chain[0], name) {
      k := 0;
    } else {
      var k' := ChainFirst(heap, chain[1..], name);
      k := k' + 1;
      forall j | 0 <= j < k ensures !Ours(heap, chain[j], name) {
        if j > 0 { assert chain[j] == chain[1..][j - 1]; }
      }
    }
  }

  /** Linear search finds the newest visible entry of the name in the first vocabulary of the
      search order that has one, and nothing only when none has. */
  lemma {:induction false} FindsForemost(heap: seq<Entry>, vocs: seq<seq<Id>>, context: seq<VocId>, name: string)
    ensures match SearchAll(heap, vocs, context, name)
            case Some(e) => exists i, k :: Foremost(heap, vocs, context, i, k, name) && vocs[context[i]][k] == e
            case None => forall i, k :: At(vocs, context, i, k) ==> !Named(heap, vocs, context, i, k, name)
  {
    if context != [] {
      var chain := if context[0] < |vocs| then vocs[context[0]] else [];
      var k := ChainFirst(heap, chain, name);
      if k < |chain| {
        assert Foremost(heap, vocs, context, 0, k, name);
      } else {
        FindsForemost(heap, vocs, context[1..], name);
        FurtherOn(heap, vocs, context, name);
        if SearchAll(heap, vocs, context[1..], name).Some? {
          var i, k :| Foremost(heap, vocs, context[1..], i, k, name)
                      && Some(vocs[context[1..][i]][k]) == SearchAll(heap, vocs, context[1..], name);
          ForemostBehind(heap, vocs, context, i, k, name);
        }
      }
    }
  }

  lemma {:induction false} FurtherOn(heap: seq<Entry>, vocs: seq<seq<Id>>, context: seq<VocId>, name: string)
    requires context != []
    ensures forall i, k :: i >= 1 && At(vocs, context, i, k) ==>
              At(vocs, context[1..], i - 1, k)
              && (Named(heap, vocs, context[1..], i - 1, k, name) <==> Named(heap, vocs, context, i, k, name))
  {
    forall i, k | i >= 1 && At(vocs, context, i, k)
      ensures At(vocs, context[1..], i - 1, k)
              && (Named(heap, vocs, context[1..], i - 1, k, name) <==> Named(heap, vocs, context, i, k, name))
    {
      assert context[1..][i - 1] == context[i];
    }
  }

  lemma {:induction false} ForemostBehind(heap: seq<Entry>, vocs: seq<seq<Id>>, context: seq<VocId>, i: int, k: int,
                                          name: string)
    requires context != [] && Foremost(heap, vocs, context[1..], i, k, name)
    requires forall j :: At(vocs, context, 0, j) ==> !Named(heap, vocs, context, 0, j, name)
    ensures Foremost(heap, vocs, context, i + 1, k, name) && vocs[context[i + 1]][k] == vocs[context[1..][i]][k]
  {
    assert context[1..][i] == context[i + 1];
    assert At(vocs, context, i + 1, k) && Named(heap, vocs, context, i + 1, k, name);
    FurtherOn(heap, vocs, context, name);
    forall i', k' | At(vocs, context, i', k') && (i' < i + 1 || (i' == i + 1 && k' < k))
      ensures !Named(heap, vocs, context, i', k', name)
    {
      if i' > 0 { assert At(vocs, context[1..], i' - 1, k'); }
    }
  }

  /** In every run that starts with a cold cache `find` does that. */
  lemma {:induction false} FindIsForemost(d0: Dict, ops: seq<Op>, d: Dict, name: string)
    requires WellFormed(d0) && d0.cache == Cold() && Reaches(d0, ops, d)
    ensures |d.cache| == CACHESIZE
    ensures match Find(d, name).0
            case Some(e) =>
              exists i, k :: Foremost(d.heap, d.vocs, d.context, i, k, name) && d.vocs[d.context[i]][k] == e
            case None => forall i, k :: At(d.vocs, d.context, i, k) ==> !Named(d.heap, d.vocs, d.context, i, k, name)
  {
    EveryRunAgrees(d0, ops, d);
    FindsForemost(d.heap, d.vocs, d.context, name);
  }

  /** The slot of a name: its low four bits are those of the first character, and its high
      four the sum of the second character and the rest of the first. */
  lemma {:induction false} HashIs(name: string)
    requires |name| >= 1
    ensures Hash(name) % 16 == name[0] as int % 16
    ensures Hash(name) / 16 == (name[0] as int / 16 + if |name| > 1 then name[1] as int else 0) % 16
  {
    var a, b := name[0] as int, if |name| > 1 then name[1] as int else 0;
    var q, r := a / 16, a % 16;
    assert a == 16 * q + r;
    var k, m := (q + b) / 16, (q + b) % 16;
    assert a + 16 * b == 256 * k + (16 * m + r);
  }

  // ----- the words on the search order, in terms of its places -----

  lemma {:induction false} PlaceIs(context: seq<VocId>, v: VocId, i: nat)
    requires i < |context| && context[i] == v && forall j :: 0 <= j < i ==> context[j] != v
    ensures Place(context, v) == i
  {
    if i > 0 { PlaceIs(context[1..], v, i - 1); }
  }

  lemma {:induction false} NoPlace(context: seq<VocId>, v: VocId)
    requires v !in context
    ensures Place(context, v) == |context|
  {
    if context != [] { NoPlace(context[1..], v); }
  }

  /** A vocabulary that is already there moves to the front; a new one goes in front of all,
      or of all but the last when the order is full. */
  lemma {:induction false} AppendIs(d: Dict, v: VocId)
    requires WellFormed(d)
    ensures var d' := Append(d, v);
            && d'.heap == d.heap && d'.vocs == d.vocs && d'.current == d.current && d'.pending == d.pending
            && (forall h :: 0 <= h < CACHESIZE ==> d'.cache[h] == None)
            && (forall i :: 0 <= i < |d.context| && d.context[i] == v ==>
                  d'.context == [v] + d.context[..i] + d.context[i + 1..])
            && (v !in d.context ==>
                  d'.context == [v] + if |d.context| < 64 then d.context else d.context[..63])
  {
    forall i | 0 <= i < |d.context| && d.context[i] == v
      ensures Append(d, v).context == [v] + d.context[..i] + d.context[i + 1..]
    {
      PlaceIs(d.context, v, i);
    }
    if v !in d.context { NoPlace(d.context, v); }
  }

  /** After `seal` only the other vocabularies answer. */
  lemma {:induction false} SealedAnswers(d: Dict, name: string)
    requires d.context != []
    ensures Linear(Seal(d), name) == SearchAll(d.heap, d.vocs, d.context[1..], name)
    ensures match Linear(Seal(d), name)
            case Some(e) => exists i, k :: i >= 1 && At(d.vocs, d.context, i, k) && d.vocs[d.context[i]][k] == e
                                           && Named(d.heap, d.vocs, d.context, i, k, name)
            case None => forall i, k :: i >= 1 && At(d.vocs, d.context, i, k) ==>
                                        !Named(d.heap, d.vocs, d.context, i, k, name)
  {
    FindsForemost(d.heap, d.vocs, d.context[1..], name);
    FurtherOn(d.heap, d.vocs, d.context, name);
    if Linear(Seal(d), name).Some? {
      var i, k :| Foremost(d.heap, d.vocs, d.context[1..], i, k, name)
                  && Some(d.vocs[d.context[1..][i]][k]) == Linear(Seal(d), name);
      assert d.context[1..][i] == d.context[i + 1];
      assert At(d.vocs, d.context, i + 1, k) && Named(d.heap, d.vocs, d.context, i + 1, k, name);
    }
  }

  /** `append` of a vocabulary that is not in the search order, and then `seal`, give back
      every answer, cached or not, if and only if there was room: else the last vocabulary has
      gone. */
  lemma {:induction false} SealUndoesAppend(d: Dict, v: VocId, name: string)
    requires WellFormed(d) && v !in d.context && v < |d.vocs|
    ensures var d' := Seal(Append(d, v));
            && d'.context == (if |d.context| < 64 then d.context else d.context[..63])
            && d'.heap == d.heap && d'.vocs == d.vocs && d'.current == d.current
            && (|d.context| < 64 ==> Linear(d', name) == Linear(d, name) == Find(d', name).0)
            && (|d.context| == 64 ==> Linear(d', name) == SearchAll(d.heap, d.vocs, d.context[..63], name))
  {
    AppendIs(d, v);
    assert |Append(d, v).context| >= 1;
    if |d.context| < 64 { assert ([v] + d.context)[1..] == d.context; }
    else { assert ([v] + d.context[..63])[1..] == d.context[..63]; }
  }

  /** `append v` and `definitions`: the next definition goes in front of vocabulary `v` and is
      found first. */
  lemma {:induction false} DefinesInAppended(d: Dict, v: VocId, name: string)
    requires WellFormed(d) && v < |d.vocs|
    ensures Append(d, v).context != []
    ensures var d' := Definitions(Append(d, v));
            && d'.current == v && |d'.cache| == CACHESIZE && d'.vocs == d.vocs
            && var d'' := Define(d', name, Normal);
               && d''.heap == d.heap + [Entry(name, Normal)]
               && d''.vocs == d.vocs[v := [|d.heap|] + d.vocs[v]]
               && Linear(d'', name) == Some(|d.heap|)
  {
    AppendKeeps(d, v);
    AppendIs(d, v);
    ToFrontFrom(d.context, v);
    var d' := Definitions(Append(d, v));
    FindKeeps(d', name);
    MakeEntrySearch(Find(d', name).1, name, Normal, name);
  }

  /** `only` keeps the first vocabulary to search in and to define in. */
  lemma {:induction false} OnlyFirst(d: Dict, name: string)
    requires WellFormed(d) && d.context != []
    ensures var d' := Only(d);
            && d'.context == [d.context[0]] && d'.current == d.context[0]
            && Linear(d', name) == Search(d.heap, d.vocs[d.context[0]], name)
  {
    assert d.context[..1] == [d.context[0]];
    assert [d.context[0]][1..] == [];
    assert SearchAll(d.heap, d.vocs, [], name) == None;
  }

  /** `restore` to an entry of the current vocabulary cuts it back to that entry and clears
      the slots of what it cuts, no others. To another entry it clears the slots of them all
      and cuts nothing. Without an entry it clears every slot and no more. */
  lemma {:induction false} RestoreIs(d: Dict, e: Id)
    requires WellFormed(d)
    ensures var d' := Restore(d, None);
            && d' == d.(cache := d'.cache) && |d'.cache| == CACHESIZE
            && forall h :: 0 <= h < CACHESIZE ==> d'.cache[h] == None
    ensures var chain, d' := d.vocs[d.current], Restore(d, Some(e));
            && d'.heap == d.heap && d'.context == d.context && d'.current == d.current && d'.pending == d.pending
            && |d'.cache| == CACHESIZE
            && (e !in chain ==> d'.vocs == d.vocs)
            && (forall n :: 0 <= n < |chain| && chain[n] == e && e !in chain[..n] ==>
                  d'.vocs == d.vocs[d.current := chain[n..]])
            && (forall h :: 0 <= h < CACHESIZE ==>
                  d'.cache[h] == if Cleared(d, e, h) then None else d.cache[h])
  {
    var chain := d.vocs[d.current];
    var n := Newer(chain, e);
    forall m | 0 <= m < |chain| && chain[m] == e && e !in chain[..m] ensures n == m {}
    forall h | 0 <= h < CACHESIZE
      ensures Restore(d, Some(e)).cache[h] == if Cleared(d, e, h) then None else d.cache[h]
    {
      FlushedIs(d.cache, d.heap, chain[..n], h);
      if i :| 0 <= i < |chain| && e !in chain[..i + 1] && Hash(d.heap[chain[i]].name) == h {
        assert chain[..n][i] == chain[i];
      }
      if i :| 0 <= i < n && Hash(d.heap[chain[..n][i]].name) == h {
        assert forall x :: x in chain[..i + 1] ==> x in chain[..n];
        assert chain[i] == chain[..n][i];
        assert Cleared(d, e, h);
      }
    }
  }

  /** Some entry newer than `e` in the current vocabulary has its slot at `h`. */
  ghost predicate Cleared(d: Dict, e: Id, h: nat)
    requires WellFormed(d)
  {
    var chain := d.vocs[d.current];
    exists i :: 0 <= i < |chain| && e !in chain[..i + 1] && Hash(d.heap[chain[i]].name) == h
  }

  lemma {:induction false} FlushedIs(cache: seq<Opt<Id>>, heap: seq<Entry>, ids: seq<Id>, h: nat)
    requires |cache| == CACHESIZE && h < CACHESIZE && forall i :: 0 <= i < |ids| ==> ids[i] < |heap|
    ensures Flushed(cache, heap, ids)[h] ==
            if exists i :: 0 <= i < |ids| && Hash(heap[ids[i]].name) == h then None else cache[h]
    decreases |ids|
  {
    if ids != [] {
      FlushedIs(cache[Hash(heap[ids[0]].name) := None], heap, ids[1..], h);
      if i :| 0 <= i < |ids| && Hash(heap[ids[i]].name) == h {
        if i > 0 { assert ids[1..][i - 1] == ids[i]; }
      }
    }
  }
}
