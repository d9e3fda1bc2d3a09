/** Dictionary lookup through shadowing vocabularies, and the lossy one-entry-per-slot cache
    in front of it: what the words of the dictionary do, as functions on its state. */
module Lookup {
  import opened Options

  /** Entry modes of src/kernel.h that matter here: a colon definition under construction is
      hidden in both states of the outer interpreter. */
  datatype Mode = Normal | Immediate | Hidden

  /** Entries are referred to by their index in the heap of all entries ever made. */
  datatype Entry = Entry(name: string, mode: Mode)

  type Id = nat
  type VocId = nat

  const CACHESIZE: nat := 256
  const CONTEXTSIZE: nat := 64

  /** Each vocabulary's chain of entries, newest first; the search order; the vocabulary that
      takes new definitions; the cache; and the colon definition under construction. */
  datatype Dict = Dict(
    heap: seq<Entry>, vocs: seq<seq<Id>>, context: seq<VocId>, current: VocId,
    cache: seq<Opt<Id>>, pending: Opt<Id>)

  /** First character plus sixteen times the second, in eight bits. A name is terminated by
      a null character, which the hash may read. */
  function Hash(name: string): (h: nat)
    ensures h < CACHESIZE
  {
    var c0 := if |name| > 0 then name[0] as int else 0;
    var c1 := if |name| > 1 then name[1] as int else 0;
    (c0 + 16 * c1) % CACHESIZE
  }

  predicate Visible(e: Entry) { e.mode != Hidden }

  /** Entry `e` is one that a search for the name may return. */
  predicate Matches(heap: seq<Entry>, e: Id, name: string) {
    e < |heap| && heap[e].name == name && Visible(heap[e])
  }

  /** `lookup`: the first visible entry of that name in one chain. */
  function Search(heap: seq<Entry>, chain: seq<Id>, name: string): (r: Opt<Id>) {
    if chain == [] then None
    else if Matches(heap, chain[0], name) then Some(chain[0])
    else Search(heap, chain[1..], name)
  }

  /** The reference: first match through the search order, no cache. */
  function SearchAll(heap: seq<Entry>, vocs: seq<seq<Id>>, context: seq<VocId>, name: string): Opt<Id> {
    if context == [] then None
    else
      var r := if context[0] < |vocs| then Search(heap, vocs[context[0]], name) else None;
      if r.Some? then r else SearchAll(heap, vocs, context[1..], name)
  }

  function Linear(d: Dict, name: string): Opt<Id> { SearchAll(d.heap, d.vocs, d.context, name) }

  /** A usable cached entry of that name. */
  predicate Hit(d: Dict, name: string)
    requires |d.cache| == CACHESIZE
  {
    d.cache[Hash(name)].Some? && Matches(d.heap, d.cache[Hash(name)].val, name)
  }

  /** `find`: the cached entry, else linear search and remember what it found. */
  function Find(d: Dict, name: string): (Opt<Id>, Dict)
    requires |d.cache| == CACHESIZE
  {
    if Hit(d, name) then (d.cache[Hash(name)], d)
    else
      var r := Linear(d, name);
      (r, if r.Some? then d.(cache := d.cache[Hash(name) := r]) else d)
  }

  // ----- what changes the dictionary -----

  function Put(d: Dict, name: string, e: Opt<Id>): Dict
    requires |d.cache| == CACHESIZE
  {
    d.(cache := d.cache[Hash(name) := e])
  }

  predicate CurrentFirst(d: Dict) { d.context != [] && d.context[0] == d.current }

  /** `make_entry`: link a new entry into the current vocabulary; cache it if that is first in
      the search order, else clear its slot. */
  function MakeEntry(d: Dict, name: string, mode: Mode): Dict
    requires |d.cache| == CACHESIZE && d.current < |d.vocs|
  {
    var e := |d.heap|;
    var linked := d.(heap := d.heap + [Entry(name, mode)],
                     vocs := d.vocs[d.current := [e] + d.vocs[d.current]]);
    Put(linked, name, if CurrentFirst(d) then Some(e) else None)
  }

  /** `entry` and the defining words: look for a forward declaration, then make the entry. */
  function Define(d: Dict, name: string, mode: Mode): Dict
    requires |d.cache| == CACHESIZE && d.current < |d.vocs|
  {
    MakeEntry(Find(d, name).1, name, mode)
  }

  /** `:` makes a hidden entry. */
  function Colon(d: Dict, name: string): Dict
    requires |d.cache| == CACHESIZE && d.current < |d.vocs|
  {
    Define(d, name, Hidden).(pending := Some(|d.heap|))
  }

  /** `;` makes it visible and caches it if the current vocabulary is first in the search
      order. */
  function Semicolon(d: Dict): Dict
    requires |d.cache| == CACHESIZE && (d.pending.Some? ==> d.pending.val < |d.heap|)
  {
    match d.pending
    case None => d
    case Some(e) =>
      var shown := d.(heap := d.heap[e := d.heap[e].(mode := Normal)], pending := None);
      if CurrentFirst(d) then Put(shown, d.heap[e].name, Some(e)) else shown
  }

  /** `immediate`: the newest entry of the current vocabulary; a hidden one stays hidden. */
  function MakeImmediate(d: Dict): Dict
    requires d.current < |d.vocs| && d.vocs[d.current] != [] && d.vocs[d.current][0] < |d.heap|
  {
    var e := d.vocs[d.current][0];
    if Visible(d.heap[e]) then d.(heap := d.heap[e := d.heap[e].(mode := Immediate)]) else d
  }

  /** Entries in front of `e` in a chain, or all of them when `e` is not there. */
  function Newer(chain: seq<Id>, e: Id): (n: nat)
    ensures n <= |chain|
    ensures n < |chain| ==> chain[n] == e
    ensures e !in chain[..n]
  {
    if chain == [] || chain[0] == e then 0
    else
      var n := Newer(chain[1..], e);
      assert chain[..n + 1] == [chain[0]] + chain[1..][..n];
      1 + n
  }

  /** The cache without the slots of the given entries. */
  function Flushed(cache: seq<Opt<Id>>, heap: seq<Entry>, ids: seq<Id>): (r: seq<Opt<Id>>)
    requires |cache| == CACHESIZE && forall i :: 0 <= i < |ids| ==> ids[i] < |heap|
    ensures |r| == CACHESIZE
    decreases |ids|
  {
    if ids == [] then cache else Flushed(cache[Hash(heap[ids[0]].name) := None], heap, ids[1..])
  }

  function Cold(): (r: seq<Opt<Id>>)
    ensures |r| == CACHESIZE && forall i :: 0 <= i < |r| ==> r[i] == None
  {
    seq(CACHESIZE, _ => None)
  }

  /** `restore`: without an entry, flush the cache; with one, clear the slots of all newer
      entries of the current vocabulary and, if it was found there, cut them off. */
  function Restore(d: Dict, mark: Opt<Id>): Dict
    requires |d.cache| == CACHESIZE && d.current < |d.vocs|
    requires forall i :: 0 <= i < |d.vocs[d.current]| ==> d.vocs[d.current][i] < |d.heap|
  {
    match mark
    case None => d.(cache := Cold())
    case Some(e) =>
      var chain := d.vocs[d.current];
      var n := Newer(chain, e);
      d.(cache := Flushed(d.cache, d.heap, chain[..n]),
         vocs := if n < |chain| then d.vocs[d.current := chain[n..]] else d.vocs)
  }

  /** `doappend`: flush, and bring the vocabulary to the front of the search order. A new one
      pushes the last one out of a full search order. */
  function Append(d: Dict, v: VocId): Dict {
    d.(cache := Cold(), context := ToFront(d.context, v))
  }

  function ToFront(context: seq<VocId>, v: VocId): seq<VocId> {
    var at := Place(context, v);
    if at < |context| then [v] + context[..at] + context[at + 1..]
    else [v] + (if |context| < CONTEXTSIZE then context else context[..CONTEXTSIZE - 1])
  }

  /** Where `v` is in the search order, or its length. */
  function Place(context: seq<VocId>, v: VocId): (i: nat)
    ensures i <= |context| && v !in context[..i]
    ensures i < |context| ==> context[i] == v
  {
    if context == [] || context[0] == v then 0
    else
      var i := Place(context[1..], v);
      assert context[..i + 1] == [context[0]] + context[1..][..i];
      1 + i
  }

  /** `only` keeps the first vocabulary, which becomes the current one. */
  function Only(d: Dict): Dict
    requires d.context != []
  {
    d.(cache := Cold(), context := d.context[..1], current := d.context[0])
  }

  /** `seal` removes the first vocabulary. */
  function Seal(d: Dict): Dict {
    d.(cache := Cold(), context := if d.context == [] then [] else d.context[1..])
  }

  function Definitions(d: Dict): Dict
    requires d.context != []
  {
    d.(current := d.context[0])
  }

  /** `vocabulary` makes an entry and an empty chain. */
  function NewVocabulary(d: Dict, name: string): Dict
    requires |d.cache| == CACHESIZE && d.current < |d.vocs|
  {
    var d1 := Define(d, name, Normal);
    d1.(vocs := d1.vocs + [[]])
  }

  // ----- runs -----

  datatype Op =
    | OFind(name: string) | ODefine(name: string) | OColon(name: string) | OSemicolon | OImmediate
    | ORestore(mark: Opt<Id>) | OAppend(v: VocId) | OOnly | OSeal | ODefinitions | OVocabulary(name: string)

  /** Entries and vocabularies exist, and no vocabulary is twice in the search order. */
  ghost predicate WellFormed(d: Dict) {
    && |d.cache| == CACHESIZE && |d.context| <= CONTEXTSIZE && d.current < |d.vocs|
    && (forall v, i :: 0 <= v < |d.vocs| && 0 <= i < |d.vocs[v]| ==> d.vocs[v][i] < |d.heap|)
    && (forall i :: 0 <= i < |d.context| ==> d.context[i] < |d.vocs|)
    && (forall i, j :: 0 <= i < j < |d.context| ==> d.context[i] != d.context[j])
    && (d.pending.Some? ==> d.pending.val < |d.heap|)
  }

  /** All entries in the order they are searched. */
  function Order(vocs: seq<seq<Id>>, context: seq<VocId>): seq<Id> {
    if context == [] then []
    else (if context[0] < |vocs| then vocs[context[0]] else []) + Order(vocs, context[1..])
  }

  /** The entry is searched, and no visible entry of its name comes before it. */
  ghost predicate InFront(heap: seq<Entry>, order: seq<Id>, e: Id)
    requires e < |heap|
  {
    e in order && forall k :: 0 <= k < Newer(order, e) ==> !Matches(heap, order[k], heap[e].name)
  }

  /** What `;` leaves in the slot of the definition's name is the definition just when that
      comes first in the search order, or else of no use: another name, or hidden. `;` stores
      the definition there exactly when the current vocabulary is first. */
  ghost predicate SlotWillDo(d: Dict, e: Id)
    requires WellFormed(d) && e < |d.heap|
  {
    var c := if CurrentFirst(d) then Some(e) else d.cache[Hash(d.heap[e].name)];
    c == Some(e) || Hit(d, d.heap[e].name) ==> (c == Some(e) <==> InFront(d.heap, Order(d.vocs, d.context), e))
  }

  /** What the words demand: a vocabulary to put entries in, a definition to end whose slot
      will do, an entry to make immediate, and a last slot free when `seal` moves the search
      order down. */
  ghost predicate Enabled(d: Dict, op: Op)
    requires WellFormed(d)
  {
    match op
    case OSemicolon => d.pending.Some? ==> SlotWillDo(d, d.pending.val)
    case OImmediate => d.vocs[d.current] != []
    case OAppend(v) => v < |d.vocs|
    case OOnly => d.context != []
    case OSeal => |d.context| < CONTEXTSIZE
    case ODefinitions => d.context != []
    case _ => true
  }

  ghost function Apply(d: Dict, op: Op): Dict
    requires WellFormed(d) && Enabled(d, op)
  {
    match op
    case OFind(name) => Find(d, name).1
    case ODefine(name) => Define(d, name, Normal)
    case OColon(name) => Colon(d, name)
    case OSemicolon => Semicolon(d)
    case OImmediate => MakeImmediate(d)
    case ORestore(mark) => Restore(d, mark)
    case OAppend(v) => Append(d, v)
    case OOnly => Only(d)
    case OSeal => Seal(d)
    case ODefinitions => Definitions(d)
    case OVocabulary(name) => NewVocabulary(d, name)
  }

  /** Every cached entry sits in the slot of its name, and a visible one is what linear
      search finds. */
  ghost predicate CacheOk(d: Dict)
    requires |d.cache| == CACHESIZE
  {
    forall h :: 0 <= h < CACHESIZE ==> SlotOk(d, h)
  }

  ghost predicate SlotOk(d: Dict, h: nat)
    requires |d.cache| == CACHESIZE && h < CACHESIZE
  {
    d.cache[h].Some? ==>
      var e := d.cache[h].val;
      && e < |d.heap| && Hash(d.heap[e].name) == h
      && (Visible(d.heap[e]) ==> Linear(d, d.heap[e].name) == Some(e))
  }

  // ----- the invariant and what it gives -----

  /** With a sound cache, cached search is linear search. */
  lemma {:induction false} CachedFind(d: Dict, name: string)
    requires |d.cache| == CACHESIZE && CacheOk(d)
    ensures Find(d, name).0 == Linear(d, name)
  {
    assert SlotOk(d, Hash(name));
  }

  /** Two dictionaries whose vocabularies give the same answers answer alike. */
  lemma {:induction false} SearchSame(heap: seq<Entry>, vocs: seq<seq<Id>>, heap': seq<Entry>, vocs': seq<seq<Id>>,
                                      context: seq<VocId>, name: string)
    requires |vocs| <= |vocs'| && forall i :: 0 <= i < |context| ==> context[i] < |vocs|
    requires forall v :: 0 <= v < |vocs| ==> Search(heap, vocs[v], name) == Search(heap', vocs'[v], name)
    ensures SearchAll(heap, vocs, context, name) == SearchAll(heap', vocs', context, name)
  {
    if context != [] { SearchSame(heap, vocs, heap', vocs', context[1..], name); }
  }

  /** Entries that match alike in both heaps are found alike. */
  lemma {:induction false} SearchHeaps(heap: seq<Entry>, heap': seq<Entry>, chain: seq<Id>, name: string)
    requires forall i :: 0 <= i < |chain| ==> (Matches(heap, chain[i], name) <==> Matches(heap', chain[i], name))
    ensures Search(heap, chain, name) == Search(heap', chain, name)
  {
    if chain != [] { SearchHeaps(heap, heap', chain[1..], name); }
  }

  /** Entries of other names in front of a chain do not change what is found. */
  lemma {:induction false} SearchDrop(heap: seq<Entry>, chain: seq<Id>, n: nat, name: string)
    requires n <= |chain|
    requires forall i :: 0 <= i < n ==> !Matches(heap, chain[i], name)
    ensures Search(heap, chain, name) == Search(heap, chain[n..], name)
  {
    if n > 0 {
      SearchDrop(heap, chain[1..], n - 1, name);
      assert chain[1..][n - 1..] == chain[n..];
    }
  }

  /** A result is a match. */
  lemma {:induction false} FoundMatches(heap: seq<Entry>, vocs: seq<seq<Id>>, context: seq<VocId>, name: string)
    ensures var r := SearchAll(heap, vocs, context, name); r.Some? ==> Matches(heap, r.val, name)
  {
    if context != [] {
      if context[0] < |vocs| { FoundInChain(heap, vocs[context[0]], name); }
      FoundMatches(heap, vocs, context[1..], name);
    }
  }

  lemma {:induction false} FoundInChain(heap: seq<Entry>, chain: seq<Id>, name: string)
    ensures var r := Search(heap, chain, name); r.Some? ==> Matches(heap, r.val, name)
  {
    if chain != [] { FoundInChain(heap, chain[1..], name); }
  }

  /** A change that leaves all linear answers of other slots alone keeps those slots. */
  lemma {:induction false} OtherSlots(d: Dict, d': Dict, h: nat)
    requires |d.cache| == |d'.cache| == CACHESIZE && h < CACHESIZE && SlotOk(d, h)
    requires d'.cache[h] == None || d'.cache[h] == d.cache[h]
    requires |d.heap| <= |d'.heap|
    requires forall e :: 0 <= e < |d.heap| && Hash(d.heap[e].name) == h ==>
               d'.heap[e].name == d.heap[e].name && (Visible(d'.heap[e]) ==> Visible(d.heap[e]))
    requires forall name :: Hash(name) == h ==> Linear(d', name) == Linear(d, name)
    ensures SlotOk(d', h)
  {
  }

  // ----- each operation -----

  lemma {:induction false} FindKeeps(d: Dict, name: string)
    requires WellFormed(d) && CacheOk(d)
    ensures WellFormed(Find(d, name).1) && CacheOk(Find(d, name).1)
    ensures forall n :: Linear(Find(d, name).1, n) == Linear(d, n)
  {
    var d' := Find(d, name).1;
    FoundMatches(d.heap, d.vocs, d.context, name);
    forall h | 0 <= h < CACHESIZE ensures SlotOk(d', h) { assert SlotOk(d, h); }
  }

  /** The new entry is found under its name if it is visible and its vocabulary is first;
      under other names nothing changes. */
  lemma {:induction false} MakeEntrySearch(d: Dict, name: string, mode: Mode, n: string)
    requires WellFormed(d)
    ensures var d' := MakeEntry(d, name, mode);
            && (n != name || mode == Hidden ==> Linear(d', n) == Linear(d, n))
            && (n == name && mode != Hidden && CurrentFirst(d) ==> Linear(d', n) == Some(|d.heap|))
  {
    var d' := MakeEntry(d, name, mode);
    assert d'.vocs[d.current][1..] == d.vocs[d.current];
    if n != name || mode == Hidden {
      forall v | 0 <= v < |d.vocs| ensures Search(d.heap, d.vocs[v], n) == Search(d'.heap, d'.vocs[v], n) {
        SearchHeaps(d.heap, d'.heap, d.vocs[v], n);
      }
      SearchSame(d.heap, d.vocs, d'.heap, d'.vocs, d.context, n);
    }
  }

  lemma {:induction false} MakeEntryKeeps(d: Dict, name: string, mode: Mode)
    requires WellFormed(d) && CacheOk(d)
    ensures WellFormed(MakeEntry(d, name, mode)) && CacheOk(MakeEntry(d, name, mode))
  {
    var d' := MakeEntry(d, name, mode);
    forall h | 0 <= h < CACHESIZE ensures SlotOk(d', h) {
      assert SlotOk(d, h);
      if h == Hash(name) {
        MakeEntrySearch(d, name, mode, name);
      } else {
        forall n | Hash(n) == h ensures Linear(d', n) == Linear(d, n) { MakeEntrySearch(d, name, mode, n); }
        OtherSlots(d, d', h);
      }
    }
  }

  lemma {:induction false} DefineKeeps(d: Dict, name: string, mode: Mode)
    requires WellFormed(d) && CacheOk(d)
    ensures WellFormed(Define(d, name, mode)) && CacheOk(Define(d, name, mode))
    ensures Define(d, name, mode).pending == d.pending
  {
    FindKeeps(d, name);
    MakeEntryKeeps(Find(d, name).1, name, mode);
  }

  /** Making an entry visible only matters for its own name, which then finds either that
      entry or what it found before. */
  lemma {:induction false} RevealSearch(d: Dict, e: Id, n: string)
    requires WellFormed(d) && e < |d.heap|
    ensures var heap' := d.heap[e := d.heap[e].(mode := Normal)];
            var r := SearchAll(heap', d.vocs, d.context, n);
            && (r == Linear(d, n) || r == Some(e))
            && (n != d.heap[e].name ==> r == Linear(d, n))
  {
    var heap' := d.heap[e := d.heap[e].(mode := Normal)];
    RevealContext(d.heap, heap', d.vocs, d.context, e, n);
  }

  lemma {:induction false} RevealContext(heap: seq<Entry>, heap': seq<Entry>, vocs: seq<seq<Id>>, context: seq<VocId>,
                                         e: Id, n: string)
    requires e < |heap| && heap' == heap[e := heap[e].(mode := Normal)]
    ensures var r := SearchAll(heap', vocs, context, n);
            && (r == SearchAll(heap, vocs, context, n) || r == Some(e))
            && (n != heap[e].name ==> r == SearchAll(heap, vocs, context, n))
  {
    if context != [] {
      if context[0] < |vocs| { RevealChain(heap, heap', vocs[context[0]], e, n); }
      RevealContext(heap, heap', vocs, context[1..], e, n);
    }
  }

  lemma {:induction false} RevealChain(heap: seq<Entry>, heap': seq<Entry>, chain: seq<Id>, e: Id, n: string)
    requires e < |heap| && heap' == heap[e := heap[e].(mode := Normal)]
    ensures var r := Search(heap', chain, n);
            && (r == Search(heap, chain, n) || r == Some(e))
            && (n != heap[e].name ==> r == Search(heap, chain, n))
  {
    if chain != [] { RevealChain(heap, heap', chain[1..], e, n); }
  }

  lemma {:induction false} SearchInOrder(heap: seq<Entry>, vocs: seq<seq<Id>>, context: seq<VocId>, name: string)
    ensures SearchAll(heap, vocs, context, name) == Search(heap, Order(vocs, context), name)
  {
    if context != [] {
      SearchInOrder(heap, vocs, context[1..], name);
      var chain := if context[0] < |vocs| then vocs[context[0]] else [];
      SearchBoth(heap, chain, Order(vocs, context[1..]), name);
    }
  }

  lemma {:induction false} SearchBoth(heap: seq<Entry>, s: seq<Id>, t: seq<Id>, name: string)
    ensures Search(heap, s + t, name) ==
            if Search(heap, s, name).Some? then Search(heap, s, name) else Search(heap, t, name)
  {
    if s == [] {
      assert s + t == t;
    } else {
      assert (s + t)[1..] == s[1..] + t;
      SearchBoth(heap, s[1..], t, name);
    }
  }

  lemma {:induction false} FoundInFront(heap: seq<Entry>, order: seq<Id>, e: Id)
    requires e < |heap|
    ensures Search(heap[e := heap[e].(mode := Normal)], order, heap[e].name) == Some(e) <==> InFront(heap, order, e)
  {
    if order != [] && order[0] != e {
      var n := Newer(order, e);
      FoundInFront(heap, order[1..], e);
      assert forall k :: 0 < k < n ==> order[k] == order[1..][k - 1];
      assert forall k :: 0 <= k < n - 1 ==> order[1..][k] == order[k + 1];
    }
  }

  /** The exact condition: after `;` all cached answers are right if and only if the slot of
      the name will do. */
  lemma {:induction false} SemicolonIff(d: Dict)
    requires WellFormed(d) && CacheOk(d) && d.pending.Some?
    ensures WellFormed(Semicolon(d))
    ensures (forall n: string :: Find(Semicolon(d), n).0 == Linear(Semicolon(d), n)) <==> SlotWillDo(d, d.pending.val)
  {
    var d', e := Semicolon(d), d.pending.val;
    var name := d.heap[e].name;
    SearchInOrder(d'.heap, d.vocs, d.context, name);
    FoundInFront(d.heap, Order(d.vocs, d.context), e);
    RevealSearch(d, e, name);
    assert SlotOk(d, Hash(name));
    if Find(d', name).0 == Linear(d', name) {
      forall n: string ensures Find(d', n).0 == Linear(d', n) {
        assert SlotOk(d, Hash(n));
        RevealSearch(d, e, n);
      }
    }
  }

  /** With every entry in the slot of its name, right answers are a sound cache. */
  lemma {:induction false} RightIsSound(d: Dict)
    requires |d.cache| == CACHESIZE && forall n: string :: Find(d, n).0 == Linear(d, n)
    requires forall h :: 0 <= h < CACHESIZE && d.cache[h].Some? ==>
               d.cache[h].val < |d.heap| && Hash(d.heap[d.cache[h].val].name) == h
    ensures CacheOk(d)
  {
    forall h | 0 <= h < CACHESIZE ensures SlotOk(d, h) {
      if d.cache[h].Some? {
        var n := d.heap[d.cache[h].val].name;
        assert Find(d, n).0 == Linear(d, n);
      }
    }
  }

  lemma {:induction false} SemicolonKeeps(d: Dict)
    requires WellFormed(d) && CacheOk(d) && Enabled(d, OSemicolon)
    ensures WellFormed(Semicolon(d)) && CacheOk(Semicolon(d))
  {
    if d.pending.Some? {
      SemicolonIff(d);
      var d' := Semicolon(d);
      forall h | 0 <= h < CACHESIZE && d'.cache[h].Some?
        ensures d'.cache[h].val < |d'.heap| && Hash(d'.heap[d'.cache[h].val].name) == h
      {
        assert SlotOk(d, h);
      }
      RightIsSound(d');
    }
  }

  lemma {:induction false} ImmediateKeeps(d: Dict)
    requires WellFormed(d) && CacheOk(d) && Enabled(d, OImmediate)
    ensures WellFormed(MakeImmediate(d)) && CacheOk(MakeImmediate(d))
    ensures forall n :: Linear(MakeImmediate(d), n) == Linear(d, n)
  {
    var d' := MakeImmediate(d);
    forall n ensures Linear(d', n) == Linear(d, n) { SameVisibility(d.heap, d'.heap, d.vocs, d.context, n); }
    forall h | 0 <= h < CACHESIZE ensures SlotOk(d', h) {
      assert SlotOk(d, h);
      OtherSlots(d, d', h);
    }
  }

  /** Names and visibility decide what is found. */
  lemma {:induction false} SameVisibility(heap: seq<Entry>, heap': seq<Entry>, vocs: seq<seq<Id>>,
                                          context: seq<VocId>, n: string)
    requires |heap| == |heap'|
    requires forall e :: 0 <= e < |heap| ==> heap'[e].name == heap[e].name && (Visible(heap'[e]) <==> Visible(heap[e]))
    ensures SearchAll(heap', vocs, context, n) == SearchAll(heap, vocs, context, n)
  {
    if context != [] {
      if context[0] < |vocs| { SearchHeaps(heap, heap', vocs[context[0]], n); }
      SameVisibility(heap, heap', vocs, context[1..], n);
    }
  }

  /** A slot survives the flush exactly when no flushed entry hashes to it. */
  lemma {:induction false} FlushedSlot(cache: seq<Opt<Id>>, heap: seq<Entry>, ids: seq<Id>, h: nat)
    requires |cache| == CACHESIZE && h < CACHESIZE && forall i :: 0 <= i < |ids| ==> ids[i] < |heap|
    ensures Flushed(cache, heap, ids)[h] == None || Flushed(cache, heap, ids)[h] == cache[h]
    ensures Flushed(cache, heap, ids)[h] != None ==> forall i :: 0 <= i < |ids| ==> Hash(heap[ids[i]].name) != h
    decreases |ids|
  {
    if ids != [] { FlushedSlot(cache[Hash(heap[ids[0]].name) := None], heap, ids[1..], h); }
  }

  lemma {:induction false} RestoreKeeps(d: Dict, mark: Opt<Id>)
    requires WellFormed(d) && CacheOk(d)
    ensures WellFormed(Restore(d, mark)) && CacheOk(Restore(d, mark))
  {
    if mark.Some? {
      var d' := Restore(d, mark);
      var chain := d.vocs[d.current];
      var cut := Newer(chain, mark.val);
      forall h | 0 <= h < CACHESIZE ensures SlotOk(d', h) {
        assert SlotOk(d, h);
        FlushedSlot(d.cache, d.heap, chain[..cut], h);
        if d'.cache[h].Some? {
          assert forall i :: 0 <= i < cut ==> chain[..cut][i] == chain[i];
          forall n | Hash(n) == h ensures Linear(d', n) == Linear(d, n) { CutSearch(d, d', cut, n); }
          OtherSlots(d, d', h);
        }
      }
    }
  }

  /** Cutting entries of other names off the current vocabulary changes no search. */
  lemma {:induction false} CutSearch(d: Dict, d': Dict, cut: nat, n: string)
    requires WellFormed(d) && cut <= |d.vocs[d.current]| && d'.heap == d.heap && d'.context == d.context
    requires d'.vocs == d.vocs || d'.vocs == d.vocs[d.current := d.vocs[d.current][cut..]]
    requires forall i :: 0 <= i < cut ==> d.heap[d.vocs[d.current][i]].name != n
    ensures Linear(d', n) == Linear(d, n)
  {
    SearchDrop(d.heap, d.vocs[d.current], cut, n);
    SearchSame(d.heap, d.vocs, d'.heap, d'.vocs, d.context, n);
  }

  lemma {:induction false} ToFrontKeeps(context: seq<VocId>, v: VocId)
    requires |context| <= CONTEXTSIZE
    requires forall i, j :: 0 <= i < j < |context| ==> context[i] != context[j]
    ensures |ToFront(context, v)| <= CONTEXTSIZE
    ensures forall i :: 0 <= i < |ToFront(context, v)| ==>
            ToFront(context, v)[i] == v || ToFront(context, v)[i] in context
    ensures forall i, j :: 0 <= i < j < |ToFront(context, v)| ==> ToFront(context, v)[i] != ToFront(context, v)[j]
  {
    var at, r := Place(context, v), ToFront(context, v);
    ToFrontFrom(context, v);
    hide *;
    forall i, j | 0 <= i < j < |r| ensures r[i] != r[j] {
      OriginGrows(i, j, at);
      if i > 0 { assert r[i] == context[Origin(i, at)]; }
    }
  }

  lemma {:induction false} OriginGrows(i: nat, j: nat, at: nat)
    ensures i < j ==> Origin(i, at) < Origin(j, at)
    ensures i > 0 ==> Origin(i, at) >= 0
  {}

  lemma {:induction false} ToFrontFrom(context: seq<VocId>, v: VocId)
    requires |context| <= CONTEXTSIZE
    requires forall i, j :: 0 <= i < j < |context| ==> context[i] != context[j]
    ensures var at, r := Place(context, v), ToFront(context, v);
            && 0 < |r| <= CONTEXTSIZE && r[0] == v
            && forall i :: 1 <= i < |r| ==>
                 0 <= Origin(i, at) < |context| && r[i] == context[Origin(i, at)] && r[i] != v
  {
    var at, r := Place(context, v), ToFront(context, v);
    forall i | 1 <= i < |r|
      ensures 0 <= Origin(i, at) < |context| && r[i] == context[Origin(i, at)] && r[i] != v
    {
      ToFrontAt(context, v, i);
      if i <= at { assert context[i - 1] in context[..at]; }
    }
  }

  lemma {:induction false} ToFrontAt(context: seq<VocId>, v: VocId, i: nat)
    requires |context| <= CONTEXTSIZE && 1 <= i < |ToFront(context, v)|
    ensures 0 <= Origin(i, Place(context, v)) < |context|
    ensures ToFront(context, v)[i] == context[Origin(i, Place(context, v))]
  {}

  /** Which place the one at `i` was moved from. */
  function Origin(i: int, at: nat): int { if i <= at then i - 1 else i }

  lemma {:induction false} AppendKeeps(d: Dict, v: VocId)
    requires WellFormed(d) && v < |d.vocs|
    ensures WellFormed(Append(d, v)) && CacheOk(Append(d, v))
  {
    ToFrontKeeps(d.context, v);
    hide ToFront;
  }

  lemma {:induction false} VocabularyKeeps(d: Dict, name: string)
    requires WellFormed(d) && CacheOk(d)
    ensures WellFormed(NewVocabulary(d, name)) && CacheOk(NewVocabulary(d, name))
  {
    var d1, d' := Define(d, name, Normal), NewVocabulary(d, name);
    DefineKeeps(d, name, Normal);
    hide Define;
    forall h | 0 <= h < CACHESIZE ensures SlotOk(d', h) {
      assert SlotOk(d1, h);
      forall n | Hash(n) == h ensures Linear(d', n) == Linear(d1, n) {
        SearchSame(d1.heap, d1.vocs, d'.heap, d'.vocs, d1.context, n);
      }
      OtherSlots(d1, d', h);
    }
  }

  /** Every operation keeps the cache sound. */
  lemma {:induction false} StepKeeps(d: Dict, op: Op)
    requires WellFormed(d) && CacheOk(d) && Enabled(d, op)
    ensures WellFormed(Apply(d, op)) && CacheOk(Apply(d, op))
  {
    match op
    case OFind(name) => FindKeeps(d, name);
    case ODefine(name) => DefineKeeps(d, name, Normal);
    case OColon(name) => DefineKeeps(d, name, Hidden); PendingKeeps(d, name);
    case OSemicolon => SemicolonKeeps(d);
    case OImmediate => ImmediateKeeps(d);
    case ORestore(mark) => RestoreKeeps(d, mark);
    case OAppend(v) => AppendKeeps(d, v);
    case OOnly =>
    case OSeal =>
    case ODefinitions => FindIgnoresCurrent(d);
    case OVocabulary(name) => VocabularyKeeps(d, name);
  }

  lemma {:induction false} PendingKeeps(d: Dict, name: string)
    requires WellFormed(d) && CacheOk(Define(d, name, Hidden))
    ensures |Define(d, name, Hidden).heap| == |d.heap| + 1 && CacheOk(Colon(d, name))
  {
    var d1, d' := Define(d, name, Hidden), Colon(d, name);
    forall h | 0 <= h < CACHESIZE ensures SlotOk(d', h) { assert SlotOk(d1, h); }
  }

  lemma {:induction false} FindIgnoresCurrent(d: Dict)
    requires |d.cache| == CACHESIZE && CacheOk(d) && d.context != []
    ensures CacheOk(Definitions(d))
  {
    forall h | 0 <= h < CACHESIZE ensures SlotOk(Definitions(d), h) { assert SlotOk(d, h); }
  }

  // ----- over every run -----

  ghost predicate Reaches(d0: Dict, ops: seq<Op>, d: Dict)
    decreases |ops|
  {
    if ops == [] then d == d0
    else WellFormed(d0) && Enabled(d0, ops[0]) && Reaches(Apply(d0, ops[0]), ops[1..], d)
  }

  lemma {:induction false} RunKeeps(d0: Dict, ops: seq<Op>, d: Dict)
    requires WellFormed(d0) && CacheOk(d0) && Reaches(d0, ops, d)
    ensures WellFormed(d) && CacheOk(d)
    decreases |ops|
  {
    if ops != [] {
      StepKeeps(d0, ops[0]);
      RunKeeps(Apply(d0, ops[0]), ops[1..], d);
    }
  }

  /** Main theorem: from an empty cache, over every run of finding, defining, ending colon
      definitions, restoring and changing the search order, cached search returns exactly
      what first-match search over the vocabularies returns. */
  lemma {:induction false} EveryRunAgrees(d0: Dict, ops: seq<Op>, d: Dict)
    requires WellFormed(d0) && d0.cache == Cold() && Reaches(d0, ops, d)
    ensures WellFormed(d)
    ensures forall name: string :: Find(d, name).0 == Linear(d, name)
  {
    RunKeeps(d0, ops, d);
    forall name: string ensures Find(d, name).0 == Linear(d, name) { CachedFind(d, name); }
  }

  // ----- restore undoes creation -----

  /** What may happen between taking a mark and restoring it. */
  predicate Creates(op: Op) {
    op.OFind? || op.ODefine? || op.OColon? || op.OSemicolon? || op.OImmediate? || op.OVocabulary?
  }

  /** `d` is `d0` with entries `news` added in front of the current vocabulary. */
  ghost predicate Grown(d0: Dict, d: Dict, news: seq<Id>)
    requires WellFormed(d0)
  {
    && d.context == d0.context && d.current == d0.current && |d.vocs| >= |d0.vocs| && |d.heap| >= |d0.heap|
    && (forall v :: 0 <= v < |d0.vocs| && v != d0.current ==> d.vocs[v] == d0.vocs[v])
    && d.vocs[d0.current] == news + d0.vocs[d0.current]
    && (forall i :: 0 <= i < |news| ==> news[i] >= |d0.heap|)
    && (forall e :: 0 <= e < |d0.heap| ==>
          d.heap[e].name == d0.heap[e].name && (Visible(d.heap[e]) <==> Visible(d0.heap[e])))
    && (d.pending.Some? ==> d.pending.val >= |d0.heap|)
  }

  lemma {:induction false} GrownStep(d0: Dict, d: Dict, news: seq<Id>, op: Op) returns (news': seq<Id>)
    requires WellFormed(d0) && WellFormed(d) && Grown(d0, d, news) && Creates(op) && Enabled(d, op)
    ensures Grown(d0, Apply(d, op), news')
  {
    news' := news;
    match op
    case OFind(name) => GrownCache(d0, d, news, Find(d, name).1);
    case ODefine(name) => news' := GrownDefine(d0, d, news, name, Normal);
    case OColon(name) => news' := GrownDefine(d0, d, news, name, Hidden);
    case OVocabulary(name) => news' := GrownDefine(d0, d, news, name, Normal);
    case OSemicolon =>
    case OImmediate =>
    case _ =>
  }

  lemma {:induction false} GrownCache(d0: Dict, d: Dict, news: seq<Id>, d': Dict)
    requires WellFormed(d0) && Grown(d0, d, news) && d' == d.(cache := d'.cache)
    ensures Grown(d0, d', news)
  {
  }

  lemma {:induction false} GrownDefine(d0: Dict, d: Dict, news: seq<Id>, name: string, mode: Mode)
    returns (news': seq<Id>)
    requires WellFormed(d0) && WellFormed(d) && Grown(d0, d, news)
    ensures Grown(d0, Define(d, name, mode), news')
  {
    var d1 := Find(d, name).1;
    GrownCache(d0, d, news, d1);
    hide Find;
    news' := [|d.heap|] + news;
    assert [|d.heap|] + (news + d0.vocs[d0.current]) == news' + d0.vocs[d0.current];
  }

  lemma {:induction false} GrownRun(d0: Dict, d: Dict, news: seq<Id>, ops: seq<Op>, d': Dict) returns (news': seq<Id>)
    requires WellFormed(d0) && WellFormed(d) && CacheOk(d) && Grown(d0, d, news) && Reaches(d, ops, d')
    requires forall op :: op in ops ==> Creates(op)
    ensures WellFormed(d') && CacheOk(d') && Grown(d0, d', news')
    decreases |ops|
  {
    news' := news;
    if ops != [] {
      StepKeeps(d, ops[0]);
      var n1 := GrownStep(d0, d, news, ops[0]);
      hide WellFormed, CacheOk, Grown, Enabled, Apply;
      news' := GrownRun(d0, Apply(d, ops[0]), n1, ops[1..], d');
    }
  }

  lemma {:induction false} NewerInFront(news: seq<Id>, chain: seq<Id>)
    requires chain != [] && chain[0] !in news
    ensures Newer(news + chain, chain[0]) == |news|
  {
    NewerIs(news + chain, chain[0], |news|);
  }

  lemma {:induction false} NewerIs(chain: seq<Id>, e: Id, k: nat)
    requires k < |chain| && chain[k] == e && forall i :: 0 <= i < k ==> chain[i] != e
    ensures Newer(chain, e) == k
  {
    if k > 0 { NewerIs(chain[1..], e, k - 1); }
  }

  /** Main theorem: whatever was created since the mark was taken, restoring it brings back
      the earlier search function, cached and linear. */
  lemma {:induction false} RestoreUndoesCreation(d0: Dict, ops: seq<Op>, d: Dict)
    requires WellFormed(d0) && CacheOk(d0) && d0.pending == None && d0.vocs[d0.current] != []
    requires Reaches(d0, ops, d) && forall op :: op in ops ==> Creates(op)
    ensures WellFormed(d) && CacheOk(d)
    ensures var r := Restore(d, Some(d0.vocs[d0.current][0]));
            && WellFormed(r) && |r.vocs| >= |d0.vocs|
            && (forall v :: 0 <= v < |d0.vocs| ==> r.vocs[v] == d0.vocs[v])
            && (forall name: string :: Find(r, name).0 == Linear(r, name) == Linear(d0, name))
  {
    var news := GrownRun(d0, d0, [], ops, d);
    var chain := d0.vocs[d0.current];
    var r := Restore(d, Some(chain[0]));
    NewerInFront(news, chain);
    assert (news + chain)[|news|..] == chain;
    RestoreKeeps(d, Some(chain[0]));
    forall name: string ensures Find(r, name).0 == Linear(r, name) == Linear(d0, name) {
      CachedFind(r, name);
      SameEntries(d0, r, name);
    }
  }

  lemma {:induction false} SameEntries(d0: Dict, r: Dict, name: string)
    requires WellFormed(d0) && r.context == d0.context && |r.vocs| >= |d0.vocs| && |r.heap| >= |d0.heap|
    requires forall v :: 0 <= v < |d0.vocs| ==> r.vocs[v] == d0.vocs[v]
    requires forall e :: 0 <= e < |d0.heap| ==>
               r.heap[e].name == d0.heap[e].name && (Visible(r.heap[e]) <==> Visible(d0.heap[e]))
    ensures Linear(r, name) == Linear(d0, name)
  {
    forall v | 0 <= v < |d0.vocs| ensures Search(d0.heap, d0.vocs[v], name) == Search(r.heap, r.vocs[v], name) {
      SearchHeaps(d0.heap, r.heap, d0.vocs[v], name);
    }
    SearchSame(d0.heap, d0.vocs, r.heap, r.vocs, d0.context, name);
  }

  /** The mark a program takes: the newest entry of the current vocabulary, if it has any. */
  function Last(d: Dict): Opt<Id>
    requires d.current < |d.vocs|
  {
    if d.vocs[d.current] == [] then None else Some(d.vocs[d.current][0])
  }

  /** A new definition of the name would not be found: the current vocabulary is not in the
      search order, or one before it answers the name. */
  predicate Shadowed(d: Dict, name: string) {
    var k := Place(d.context, d.current);
    k == |d.context| || SearchAll(d.heap, d.vocs, d.context[..k], name).Some?
  }

  /** The mark of an empty vocabulary is no entry, and restoring it only flushes the cache:
      a definition is undone exactly when there was a mark or it could not be found anyway. */
  lemma {:induction false} UndoneIff(d: Dict, name: string)
    requires WellFormed(d) && CacheOk(d)
    ensures WellFormed(Define(d, name, Normal))
    ensures var r := Restore(Define(d, name, Normal), Last(d));
            (forall n: string :: Find(r, n).0 == Linear(d, n)) <==> d.vocs[d.current] != [] || Shadowed(d, name)
  {
    var d1, r := Define(d, name, Normal), Restore(Define(d, name, Normal), Last(d));
    DefineKeeps(d, name, Normal);
    RestoreKeeps(d1, Last(d));
    if d.vocs[d.current] != [] {
      DefinitionCut(d, name);
      forall n: string ensures Find(r, n).0 == Linear(d, n) { CachedFind(r, n); SameEntries(d, r, n); }
    } else {
      forall n: string ensures Find(r, n).0 == Linear(d1, n) { CachedFind(r, n); }
      forall n: string | n != name ensures Linear(d1, n) == Linear(d, n) { DefinedOther(d, name, n); }
      DefinedInEmpty(d, name);
      FoundMatches(d.heap, d.vocs, d.context, name);
      assert Find(r, name).0 == Linear(d1, name);
    }
  }

  lemma {:induction false} DefinitionCut(d: Dict, name: string)
    requires WellFormed(d) && d.vocs[d.current] != []
    ensures WellFormed(Define(d, name, Normal))
    ensures var r := Restore(Define(d, name, Normal), Last(d));
            r.vocs == d.vocs && r.context == d.context && r.heap == d.heap + [Entry(name, Normal)]
  {
    var chain := d.vocs[d.current];
    NewerInFront([|d.heap|], chain);
    assert ([|d.heap|] + chain)[1..] == chain;
  }

  lemma {:induction false} DefinedOther(d: Dict, name: string, n: string)
    requires WellFormed(d) && CacheOk(d) && n != name
    ensures Linear(Define(d, name, Normal), n) == Linear(d, n)
  {
    FindKeeps(d, name);
    MakeEntrySearch(Find(d, name).1, name, Normal, n);
  }

  /** Where the new entry of an empty vocabulary is found. */
  lemma {:induction false} DefinedInEmpty(d: Dict, name: string)
    requires WellFormed(d) && d.vocs[d.current] == []
    ensures Linear(Define(d, name, Normal), name) == if Shadowed(d, name) then Linear(d, name) else Some(|d.heap|)
  {
    var d', k := Define(d, name, Normal), Place(d.context, d.current);
    var front := d.context[..k];
    SearchElsewhere(d.heap, d.vocs, d'.heap, d'.vocs, d.current, front, name);
    SearchSplit(d.heap, d.vocs, d.context, k, name);
    SearchSplit(d'.heap, d'.vocs, d.context, k, name);
    if k < |d.context| { assert d.context[k..][0] == d.current && d'.vocs[d.current] == [|d.heap|]; }
  }

  lemma {:induction false} SearchSplit(heap: seq<Entry>, vocs: seq<seq<Id>>, context: seq<VocId>, k: nat, name: string)
    requires k <= |context|
    ensures var r := SearchAll(heap, vocs, context[..k], name);
            SearchAll(heap, vocs, context, name) == if r.Some? then r else SearchAll(heap, vocs, context[k..], name)
  {
    if k > 0 {
      SearchSplit(heap, vocs, context[1..], k - 1, name);
      assert context[..k][1..] == context[1..][..k - 1] && context[1..][k - 1..] == context[k..];
    }
  }

  lemma {:induction false} SearchElsewhere(heap: seq<Entry>, vocs: seq<seq<Id>>, heap': seq<Entry>, vocs': seq<seq<Id>>,
                                           current: VocId, context: seq<VocId>, name: string)
    requires |vocs| == |vocs'| && |heap| <= |heap'| && current !in context
    requires forall v :: 0 <= v < |vocs| && v != current ==> vocs'[v] == vocs[v]
    requires forall v, i :: 0 <= v < |vocs| && 0 <= i < |vocs[v]| ==> vocs[v][i] < |heap|
    requires forall e :: 0 <= e < |heap| ==> heap'[e] == heap[e]
    ensures SearchAll(heap', vocs', context, name) == SearchAll(heap, vocs, context, name)
  {
    if context != [] {
      if context[0] < |vocs| { SearchHeaps(heap, heap', vocs[context[0]], name); }
      SearchElsewhere(heap, vocs, heap', vocs', current, context[1..], name);
    }
  }

  // ----- where the condition fails -----

  /** One vocabulary, which is current. */
  function Alone(heap: seq<Entry>, chain: seq<Id>): Dict { Dict(heap, [chain], [0], 0, Cold(), None) }

  lemma {:induction false} SearchAlone(d: Dict, name: string)
    requires |d.vocs| == 1 && d.context == [0]
    ensures Linear(d, name) == Search(d.heap, d.vocs[0], name)
  {
    assert d.context[1..] == [];
    assert SearchAll(d.heap, d.vocs, [], name) == None;
  }

  /** With the current vocabulary first: a definition cut off by `restore` is cached by `;`
      all the same, and then found although no search finds it. */
  lemma {:induction false} StaleAfterRestore(first: string, name: string) returns (d0: Dict, d: Dict)
    ensures WellFormed(d0) && d0.cache == Cold() && Reaches(d0, [OColon(name), ORestore(Some(0))], d)
    ensures WellFormed(d) && CurrentFirst(d) && Find(Semicolon(d), name).0 == Some(1)
    ensures Linear(Semicolon(d), name) == if first == name then Some(0) else None
  {
    d0 := Alone([Entry(first, Normal)], [0]);
    var d1 := CutColon(d0, first, name);
    d := Restore(d1, Some(0));
    CutRestore(d1, d, first, name);
    CutSemicolon(d, first, name);
    hide Hash, Search, SearchAll, Define, Restore;
    CutRun(d0, d1, d, name);
  }

  lemma {:induction false} CutSemicolon(d: Dict, first: string, name: string)
    requires d == Alone([Entry(first, Normal), Entry(name, Hidden)], [0]).(pending := Some(1))
    ensures Find(Semicolon(d), name).0 == Some(1)
    ensures Linear(Semicolon(d), name) == if first == name then Some(0) else None
  {
    hide Hash, Cold;
    var d' := Semicolon(d);
    SearchAlone(d', name);
    assert d'.heap == [Entry(first, Normal), Entry(name, Normal)];
    assert [0][1..] == [];
  }

  lemma {:induction false} CutColon(d0: Dict, first: string, name: string) returns (d1: Dict)
    requires d0 == Alone([Entry(first, Normal)], [0])
    ensures d1 == Colon(d0, name) && d1.pending == Some(1) && d1.cache == Cold()[Hash(name) := Some(1)]
    ensures d1.(pending := None, cache := Cold()) == Alone([Entry(first, Normal), Entry(name, Hidden)], [1, 0])
  {
    hide Hash, Search, SearchAll;
    d1 := Colon(d0, name);
    assert [1] + [0] == [1, 0] && [[0]][0 := [1, 0]] == [[1, 0]];
    var c := Find(d0, name).1.cache;
    assert c == Cold() || c == Cold()[Hash(name) := c[Hash(name)]];
    assert c[Hash(name) := Some(1)] == Cold()[Hash(name) := Some(1)];
  }

  lemma {:induction false} CutRestore(d1: Dict, d: Dict, first: string, name: string)
    requires |d1.cache| == CACHESIZE && d1.cache == Cold()[Hash(name) := Some(1)] && d1.pending == Some(1)
    requires d1.(pending := None, cache := Cold()) == Alone([Entry(first, Normal), Entry(name, Hidden)], [1, 0])
    requires d == Restore(d1, Some(0))
    ensures d == Alone([Entry(first, Normal), Entry(name, Hidden)], [0]).(pending := Some(1))
  {
    hide Hash;
    NewerIs([1, 0], 0, 1);
    assert [1, 0][1..] == [0] && [1, 0][..1] == [1] && [1][1..] == [];
    assert d1.cache[Hash(name) := None] == Cold();
    assert [[1, 0]][0 := [0]] == [[0]];
  }

  lemma {:induction false} CutRun(d0: Dict, d1: Dict, d: Dict, name: string)
    requires WellFormed(d0) && d1 == Colon(d0, name) && WellFormed(d1) && d == Restore(d1, Some(0)) && WellFormed(d)
    ensures Reaches(d0, [OColon(name), ORestore(Some(0))], d)
  {
    hide Hash, Search, SearchAll, Define, Restore, WellFormed;
    assert [OColon(name), ORestore(Some(0))][1..] == [ORestore(Some(0))];
    assert [ORestore(Some(0))][1..] == [];
    assert Reaches(d, [], d);
    assert Reaches(d1, [ORestore(Some(0))], d);
  }

  /** One entry of the name in the second vocabulary of the search order, which is current. */
  function Second(heap: seq<Entry>, chain: seq<Id>): Dict { Dict(heap, [[], chain], [0, 1], 1, Cold(), None) }

  /** It happens to any name: with another vocabulary first, redefine a word and look the old
      one up while compiling. After `;` the cache still answers with the old one. */
  lemma {:induction false} StaleAfterSemicolon(name: string) returns (d0: Dict, d: Dict)
    ensures WellFormed(d0) && d0.cache == Cold() && Reaches(d0, [OColon(name), OFind(name)], d)
    ensures WellFormed(d) && Find(Semicolon(d), name).0 == Some(0) && Linear(Semicolon(d), name) == Some(1)
  {
    d0 := Second([Entry(name, Normal)], [0]);
    var d1 := StaleColon(d0, name);
    d := StaleFind(d1, name);
    StaleSemicolon(d, name);
    StaleRun(d0, d1, d, name);
  }

  lemma {:induction false} StaleColon(d0: Dict, name: string) returns (d1: Dict)
    requires d0 == Second([Entry(name, Normal)], [0])
    ensures d1 == Colon(d0, name) && d1.pending == Some(1) && d1.cache == Cold()
    ensures d1.(pending := None) == Second([Entry(name, Normal), Entry(name, Hidden)], [1, 0])
  {
    OldFirst(d0, name);
    d1 := Colon(d0, name);
    assert d1.cache == Cold()[Hash(name) := None] == Cold();
    assert [1] + [0] == [1, 0] && [[], [0]][1 := [1, 0]] == [[], [1, 0]];
  }

  lemma {:induction false} StaleFind(d1: Dict, name: string) returns (d: Dict)
    requires d1.(pending := None) == Second([Entry(name, Normal), Entry(name, Hidden)], [1, 0])
    ensures d == Find(d1, name).1 && d == d1.(cache := Cold()[Hash(name) := Some(0)])
  {
    hide Search, SearchAll, Hash;
    OldFirst(d1, name);
    d := Find(d1, name).1;
  }

  lemma {:induction false} StaleSemicolon(d: Dict, name: string)
    requires |d.cache| == CACHESIZE && d.cache[Hash(name)] == Some(0) && d.pending == Some(1)
    requires d.(pending := None, cache := Cold()) == Second([Entry(name, Normal), Entry(name, Hidden)], [1, 0])
    ensures Find(Semicolon(d), name).0 == Some(0) && Linear(Semicolon(d), name) == Some(1)
  {
    hide Hash, Cold;
    var d' := Semicolon(d);
    SearchSecond(d', name);
    assert d'.heap == [Entry(name, Normal), Entry(name, Normal)];
  }

  lemma {:induction false} StaleRun(d0: Dict, d1: Dict, d: Dict, name: string)
    requires d0 == Second([Entry(name, Normal)], [0])
    requires d1 == Colon(d0, name) && d == Find(d1, name).1
    requires d1.(pending := None) == Second([Entry(name, Normal), Entry(name, Hidden)], [1, 0]) && d1.pending == Some(1)
    ensures WellFormed(d0) && WellFormed(d) && Reaches(d0, [OColon(name), OFind(name)], d)
  {
    hide Hash, Search, SearchAll, Define;
    assert [OColon(name), OFind(name)][1..] == [OFind(name)];
    assert [OFind(name)][1..] == [];
    assert Reaches(d, [], d);
    assert Reaches(d1, [OFind(name)], d);
  }

  lemma {:induction false} SearchSecond(d: Dict, name: string)
    requires |d.vocs| == 2 && d.vocs[0] == [] && d.context == [0, 1]
    ensures Linear(d, name) == Search(d.heap, d.vocs[1], name)
  {
    assert [0, 1][1..] == [1] && [1][1..] == [];
    assert SearchAll(d.heap, d.vocs, [1], name) == Search(d.heap, d.vocs[1], name);
  }

  lemma {:induction false} OldFirst(d: Dict, name: string)
    requires d.(pending := None) == Second([Entry(name, Normal)], [0]) ||
             d.(pending := None) == Second([Entry(name, Normal), Entry(name, Hidden)], [1, 0])
    ensures Linear(d, name) == Some(0) && !Hit(d, name)
  {
    SearchSecond(d, name);
    assert [1, 0][1..] == [0];
  }
}
