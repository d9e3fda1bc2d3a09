/** The dictionary words of `Lookup` on linked entries, the `context` and `cache` arrays and
    the loops that walk them. */
module LookupWords {
  import opened Options
  import opened Lookup
  import S = SearchOrders

  /** Every link leads to an older entry. */
  predicate Linked(links: seq<Opt<Id>>) {
    forall i :: 0 <= i < |links| ==> Before(links[i], i)
  }

  predicate Before(p: Opt<Id>, n: nat) { p.Some? ==> p.val < n }

  /** The entries reached from `p` along the links. */
  function Chain(links: seq<Opt<Id>>, p: Opt<Id>): (r: seq<Id>)
    requires Linked(links) && Before(p, |links|)
    ensures r == [] <==> p == None
    ensures p.Some? ==> r[0] == p.val
    decreases if p.Some? then p.val + 1 else 0
  {
    if p.None? then [] else [p.val] + Chain(links, links[p.val])
  }

  /** A new entry leaves older chains alone. */
  lemma {:induction false} ChainStays(links: seq<Opt<Id>>, link: Opt<Id>, p: Opt<Id>)
    requires Linked(links) && Before(link, |links|) && Before(p, |links|)
    ensures Linked(links + [link]) && Chain(links + [link], p) == Chain(links, p)
    decreases if p.Some? then p.val + 1 else 0
  {
    if p.Some? { ChainStays(links, link, links[p.val]); }
  }

  lemma {:induction false} ChainFrom(links: seq<Opt<Id>>, p: Opt<Id>, n: nat)
    requires Linked(links) && Before(p, |links|) && n < |Chain(links, p)|
    ensures Chain(links, p)[n] < |links| && Chain(links, Some(Chain(links, p)[n])) == Chain(links, p)[n..]
    decreases n
  {
    if n > 0 { ChainFrom(links, links[p.val], n - 1); }
  }

  lemma {:induction false} MakeEntryWellFormed(d: Dict, name: string, mode: Mode)
    requires WellFormed(d)
    ensures WellFormed(MakeEntry(d, name, mode))
  {
  }

  lemma {:induction false} RestoreWellFormed(d: Dict, e: Opt<Id>)
    requires WellFormed(d)
    ensures WellFormed(Restore(d, e))
  {
  }

  /** A new entry in front of one vocabulary's chain. */
  lemma {:induction false} ChainsGrow(links: seq<Opt<Id>>, last: seq<Opt<Id>>, current: VocId)
    requires Linked(links) && current < |last| && forall v :: 0 <= v < |last| ==> Before(last[v], |links|)
    ensures var links' := links + [last[current]]; var last' := last[current := Some(|links|)];
            && Linked(links')
            && forall v :: 0 <= v < |last| ==>
                 && Before(last'[v], |links'|)
                 && Chain(links', last'[v]) == (if v == current then [|links|] else []) + Chain(links, last[v])
  {
    ChainStays(links, last[current], last[current]);
    forall v | 0 <= v < |last| ensures Chain(links + [last[current]], last[v]) == Chain(links, last[v]) {
      ChainStays(links, last[current], last[v]);
    }
  }

  /** The array holds the search order, then nothing. */
  predicate Shows(a: seq<Opt<VocId>>, context: seq<VocId>) {
    && |context| <= |a|
    && (forall i :: 0 <= i < |context| ==> a[i] == Some(context[i]))
    && (forall i :: |context| <= i < |a| ==> a[i] == None)
  }

  /** Shifting the first `v` places up by one and storing at the front. */
  lemma {:induction false} Shown(a: seq<Opt<VocId>>, a': seq<Opt<VocId>>, context: seq<VocId>, p: VocId, v: nat)
    requires |a| == |a'| == CONTEXTSIZE && Shows(a, context)
    requires var at := Place(context, p); v == if at < |context| then at else CONTEXTSIZE - 1
    requires a'[0] == Some(p) && (forall i :: 1 <= i <= v ==> a'[i] == a[i - 1])
    requires forall i :: v < i < CONTEXTSIZE ==> a'[i] == a[i]
    ensures Shows(a', ToFront(context, p))
  {
    var r := ToFront(context, p);
    forall i | 0 <= i < |r| ensures a'[i] == Some(r[i]) {
      if 1 <= i <= v { assert r[i] == context[i - 1]; }
    }
  }

  class Dictionary {
    var heap: seq<Entry>
    var links: seq<Opt<Id>>             // `link` of each entry
    var last: seq<Opt<Id>>              // `last` of each vocabulary
    const context: array<Opt<VocId>>
    var current: VocId
    const cache: array<Opt<Id>>
    var thelast: Opt<Id>
    ghost var d: Dict

    /** One empty vocabulary, first in the search order and current; nothing cached. */
    constructor ()
      ensures Valid() && fresh(context) && fresh(cache)
      ensures d == Dict([], [[]], [0], 0, Cold(), None)
    {
      heap, links, last, current, thelast := [], [], [None], 0, None;
      context := new Opt<VocId>[CONTEXTSIZE](i => if i == 0 then Some(0) else None);
      cache := new Opt<Id>[CACHESIZE](_ => None);
      d := Dict([], [[]], [0], 0, Cold(), None);
    }

    ghost predicate Valid()
      reads this, context, cache
    {
      && Entries() && context.Length == CONTEXTSIZE && cache.Length == CACHESIZE
      && Shows(context[..], d.context) && cache[..] == d.cache
      && current == d.current && thelast == d.pending && WellFormed(d)
    }

    ghost predicate Entries()
      reads this
    {
      && heap == d.heap && |links| == |heap| && |last| == |d.vocs| && Linked(links)
      && forall v :: 0 <= v < |last| ==> Before(last[v], |links|) && Chain(links, last[v]) == d.vocs[v]
    }

    /** `lookup` */
    method DoLookup(v: VocId, name: string) returns (r: Opt<Id>)
      requires Valid() && v < |last|
      ensures r == Search(d.heap, d.vocs[v], name)
      ensures var chain := d.vocs[v];
              if r.None? then forall i :: 0 <= i < |chain| ==> !S.Ours(d.heap, chain[i], name)
              else exists i :: 0 <= i < |chain| && chain[i] == r.val && S.Ours(d.heap, chain[i], name)
                               && forall j :: 0 <= j < i ==> !S.Ours(d.heap, chain[j], name)
    {
      r := last[v];
      while r.Some? && !(heap[r.val].name == name && Visible(heap[r.val]))
        invariant Before(r, |links|)
        invariant Search(heap, Chain(links, r), name) == Search(heap, d.vocs[v], name)
        decreases if r.Some? then r.val + 1 else 0
      {
        assert Chain(links, r)[1..] == Chain(links, links[r.val]);
        r := links[r.val];
      }
      ghost var i := S.ChainFirst(d.heap, d.vocs[v], name);
    }

    /** `find` */
    method DoFind(name: string) returns (r: Opt<Id>)
      requires Valid()
      modifies this`d, cache
      ensures Valid() && (r, d) == Find(old(d), name)
      ensures d == old(d).(cache := d.cache)
      ensures var c := old(d).cache[Hash(name)];
              if c.Some? && c.val < |heap| && heap[c.val].name == name && heap[c.val].mode != Hidden
              then r == c && d == old(d)
              else r == Linear(old(d), name)
                   && d.cache == if r.Some? then old(d).cache[Hash(name) := r] else old(d).cache
    {
      var h := Hash(name);
      r := cache[h];
      if r.Some? && r.val < |heap| && heap[r.val].name == name && Visible(heap[r.val]) {
        return;
      }
      r := SearchOrder(name);
      if r.Some? { cache[h] := r; }
      FoundMatches(d.heap, d.vocs, d.context, name);
      assert cache[..] == Find(d, name).1.cache;
      d := Find(d, name).1;
    }

    /** The loop of `find` over the search order. */
    method SearchOrder(name: string) returns (r: Opt<Id>)
      requires Valid()
      ensures r == Linear(d, name)
    {
      var v := 0;
      while v < CONTEXTSIZE && context[v].Some?
        invariant 0 <= v <= |d.context|
        invariant Linear(d, name) == SearchAll(heap, d.vocs, d.context[v..], name)
        decreases CONTEXTSIZE - v
      {
        assert d.context[v..][1..] == d.context[v + 1..];
        r := DoLookup(context[v].val, name);
        if r.Some? { return; }
        v := v + 1;
      }
      r := None;
    }

    /** `make_entry` */
    method MakeNewEntry(name: string, mode: Mode) returns (e: Id)
      requires Valid()
      modifies this`heap, this`links, this`last, this`d, cache
      ensures Valid() && d == MakeEntry(old(d), name, mode) && e == |old(d).heap|
      ensures d == old(d).(heap := old(d).heap + [Entry(name, mode)],
                           vocs := old(d).vocs[current := [e] + old(d).vocs[current]],
                           cache := old(d).cache[Hash(name) := if context[0] == Some(current) then Some(e) else None])
    {
      e := |heap|;
      ChainsGrow(links, last, current);
      MakeEntryWellFormed(d, name, mode);
      assert current < |last| && context[0] == (if d.context == [] then None else Some(d.context[0]));
      hide Linked, Chain, WellFormed;
      heap := heap + [Entry(name, mode)];
      links := links + [last[current]];
      last := last[current := Some(e)];
      cache[Hash(name)] := if context[0] == Some(current) then Some(e) else None;
      d := MakeEntry(d, name, mode);
    }

    /** `entry` */
    method DoEntry(name: string, mode: Mode) returns (e: Id)
      requires Valid()
      modifies this`heap, this`links, this`last, this`d, cache
      ensures Valid() && d == Define(old(d), name, mode) && e == |old(d).heap|
      ensures d == old(d).(heap := old(d).heap + [Entry(name, mode)], cache := d.cache,
                           vocs := old(d).vocs[current := [e] + old(d).vocs[current]])
    {
      var found := DoFind(name);
      e := MakeNewEntry(name, mode);
    }

    /** `:` */
    method DoColon(name: string)
      requires Valid()
      modifies this, cache
      ensures Valid() && d == Colon(old(d), name)
      ensures var e := |old(d).heap|;
              d == old(d).(heap := old(d).heap + [Entry(name, Hidden)], cache := d.cache, pending := Some(e),
                           vocs := old(d).vocs[current := [e] + old(d).vocs[current]])
    {
      var e := DoEntry(name, Hidden);
      thelast := last[current];
      assert d.vocs[current][0] == e;
      d := d.(pending := Some(e));
    }

    /** `;`, its effect on the dictionary's entries */
    method DoSemicolon()
      requires Valid()
      modifies this, cache
      ensures Valid() && d == Semicolon(old(d))
      ensures match old(thelast)
              case None => d == old(d)
              case Some(e) =>
                var name := old(heap)[e].name;
                d == old(d).(heap := old(heap)[e := Entry(name, Normal)], pending := None,
                             cache := if context[0] == Some(current) then old(d).cache[Hash(name) := Some(e)]
                                      else old(d).cache)
    {
      if thelast.Some? {
        var e := thelast.val;
        heap := heap[e := heap[e].(mode := Normal)];
        if context[0] == Some(current) { cache[Hash(heap[e].name)] := Some(e); }
        thelast := None;
      }
      d := Semicolon(d);
    }

    /** `immediate` */
    method DoImmediate()
      requires Valid() && last[current].Some?
      modifies this`heap, this`d
      ensures Valid() && d == MakeImmediate(old(d))
      ensures var e := old(d).vocs[current][0];
              var was := old(heap)[e];
              d == old(d).(heap := old(heap)[e := Entry(was.name, if was.mode == Hidden then Hidden else Immediate)])
    {
      var e := last[current].val;
      if Visible(heap[e]) { heap := heap[e := heap[e].(mode := Immediate)]; }
      d := MakeImmediate(d);
    }

    /** `restore` */
    method DoRestore(e: Opt<Id>)
      requires Valid()
      modifies this`last, this`d, cache
      ensures Valid() && d == Restore(old(d), e)
    {
      if e.Some? {
        var p := FlushNewer(e.val);
        if p == e { last := last[current := e]; }
        if p == e { ChainFrom(links, old(last[current]), Newer(d.vocs[current], e.val)); }
      } else {
        Wipe();
      }
      RestoreWellFormed(d, e);
      d := Restore(d, e);
    }

    /** Clear the slots of the newer entries; stop at the entry, or at the end. */
    method FlushNewer(e: Id) returns (p: Opt<Id>)
      requires Valid()
      modifies cache
      ensures var n := Newer(d.vocs[current], e);
              && cache[..] == Flushed(d.cache, heap, d.vocs[current][..n])
              && p == (if n < |d.vocs[current]| then Some(e) else None)
    {
      ghost var chain := d.vocs[current];
      ghost var n := Newer(chain, e);
      ghost var k := 0;
      assert forall i :: 0 <= i < |chain| ==> chain[i] < |heap|;
      hide WellFormed;
      assert chain[0..n] == chain[..n];
      p := last[current];
      while p.Some? && p != Some(e)
        invariant Before(p, |links|) && 0 <= k <= n && Chain(links, p) == chain[k..]
        invariant forall i :: 0 <= i < |chain| ==> chain[i] < |heap|
        invariant Flushed(cache[..], heap, chain[k..n]) == Flushed(d.cache, heap, chain[..n])
        decreases if p.Some? then p.val + 1 else 0
      {
        assert chain[k..][0] == chain[k] == p.val;
        assert chain[k..n][1..] == chain[k + 1..n] && chain[k..][1..] == chain[k + 1..];
        ClearSlot(Hash(heap[p.val].name));
        p := links[p.val];
        k := k + 1;
      }
      if p.Some? {
        assert chain[k..][0] == chain[k] == e;
      }
    }

    method ClearSlot(h: nat)
      requires h < cache.Length
      modifies cache
      ensures cache[..] == old(cache[..])[h := None]
    {
      cache[h] := None;
    }

    /** The flush loop of `restore`. */
    method Wipe()
      requires cache.Length == CACHESIZE
      modifies cache
      ensures cache[..] == Cold() && forall h :: 0 <= h < CACHESIZE ==> cache[h] == None
    {
      for i := 0 to CACHESIZE
        invariant forall j :: 0 <= j < i ==> cache[j] == None
      {
        cache[i] := None;
      }
    }

    /** `append`: flush, look for the vocabulary, and rotate or shift the search order. */
    method DoAppend(p: VocId)
      requires Valid() && p < |last|
      modifies this`d, cache, context
      ensures Valid() && d == Append(old(d), p)
      ensures d == old(d).(cache := d.cache, context := d.context)
      ensures forall h :: 0 <= h < CACHESIZE ==> cache[h] == None
      ensures var c := old(d).context;
              && (forall i :: 0 <= i < |c| && c[i] == p ==> d.context == [p] + c[..i] + c[i + 1..])
              && (p !in c ==> d.context == [p] + if |c| < 64 then c else c[..63])
    {
      Wipe();
      AppendKeeps(d, p);
      S.AppendIs(d, p);
      var v := FindPlace(p);
      ShiftUp(v);
      context[0] := Some(p);
      Shown(old(context[..]), context[..], d.context, p, v);
      d := Append(d, p);
    }

    /** Where the vocabulary is in the search order, or the last place. */
    method FindPlace(p: VocId) returns (v: nat)
      requires context.Length == CONTEXTSIZE && Shows(context[..], d.context)
      ensures var at := Place(d.context, p); v == if at < |d.context| then at else CONTEXTSIZE - 1
    {
      ghost var at := Place(d.context, p);
      v := 0;
      while v < CONTEXTSIZE && context[v] != Some(p)
        invariant v <= CONTEXTSIZE && (at < |d.context| ==> v <= at)
        invariant forall i :: 0 <= i < v ==> context[i] != Some(p)
      {
        v := v + 1;
      }
      if v == CONTEXTSIZE { v := CONTEXTSIZE - 1; }
    }

    /** `for (; v; v--) context[v] = context[v - 1]` */
    method ShiftUp(v: nat)
      requires v < context.Length
      modifies context
      ensures forall i :: 1 <= i <= v ==> context[i] == old(context[i - 1])
      ensures forall i :: v < i < context.Length ==> context[i] == old(context[i])
    {
      var k: nat := v;
      while k > 0
        invariant k <= v
        invariant forall i :: 0 <= i <= k ==> context[i] == old(context[i])
        invariant forall i :: k < i <= v ==> context[i] == old(context[i - 1])
        invariant forall i :: v < i < context.Length ==> context[i] == old(context[i])
      {
        context[k] := context[k - 1];
        k := k - 1;
      }
    }

    /** `only` */
    method DoOnly()
      requires Valid() && d.context != []
      modifies this`d, this`current, cache, context
      ensures Valid() && d == Only(old(d))
      ensures d == old(d).(cache := d.cache, context := [old(d).context[0]], current := old(d).context[0])
      ensures forall h :: 0 <= h < CACHESIZE ==> cache[h] == None
    {
      Wipe();
      for v := 1 to CONTEXTSIZE
        modifies context
        invariant context[0] == old(context[0])
        invariant forall i :: 1 <= i < v ==> context[i] == None
      {
        context[v] := None;
      }
      current := context[0].val;
      d := Only(d);
    }

    /** `seal` */
    method DoSeal()
      requires Valid() && |d.context| < CONTEXTSIZE
      modifies this`d, cache, context
      ensures Valid() && d == Seal(old(d))
      ensures d == old(d).(cache := d.cache, context := if old(d).context == [] then [] else old(d).context[1..])
      ensures forall h :: 0 <= h < CACHESIZE ==> cache[h] == None
    {
      Wipe();
      var v := 0;
      context[0] := context[1];
      while context[v].Some?
        invariant v < CONTEXTSIZE - 1 && v <= |d.context|
        invariant forall i :: 0 <= i <= v ==> context[i] == old(context[i + 1])
        invariant forall i :: v < i < CONTEXTSIZE ==> context[i] == old(context[i])
        modifies context
        decreases CONTEXTSIZE - v
      {
        v := v + 1;
        context[v] := context[v + 1];
      }
      d := Seal(d);
    }

    /** `definitions` */
    method DoDefinitions()
      requires Valid() && d.context != []
      modifies this`d, this`current
      ensures Valid() && d == Definitions(old(d)) && d == old(d).(current := old(d).context[0])
    {
      current := context[0].val;
      d := Definitions(d);
    }

    /** `vocabulary` */
    method DoVocabulary(name: string)
      requires Valid()
      modifies this`heap, this`links, this`last, this`d, cache
      ensures Valid() && d == NewVocabulary(old(d), name)
      ensures var e := |old(d).heap|;
              d == old(d).(heap := old(d).heap + [Entry(name, Normal)], cache := d.cache,
                           vocs := old(d).vocs[current := [e] + old(d).vocs[current]] + [[]])
    {
      var e := DoEntry(name, Normal);
      last := last + [None];
      d := d.(vocs := d.vocs + [[]]);
    }
  }
}
