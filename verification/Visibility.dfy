/** Cached and linear search where entries may be limited to one state of the outer
    interpreter or private to their vocabulary: the cached path tests the state only, so it
    agrees with linear search on some dictionaries and not on others. */
module Visibility {
  import opened Options
  import L = Lookup

  type Id = L.Id
  type VocId = L.VocId

  datatype Entry = Entry(name: string, execution: bool, compilation: bool, private: bool)

  /** Entries, the chains of the vocabularies and the search order. */
  datatype Library = Library(heap: seq<Entry>, vocs: seq<seq<Id>>, context: seq<VocId>)

  /** What visibility depends on: the state and the vocabulary of new definitions, if any. */
  datatype View = View(compiling: bool, current: Opt<VocId>)

  datatype Session = Session(view: View, cache: seq<Opt<Id>>)

  predicate WellFormed(lib: Library) {
    Orders(lib, lib.context) && forall v :: 0 <= v < |lib.vocs| ==> Links(lib, lib.vocs[v])
  }

  predicate Links(lib: Library, chain: seq<Id>) { forall i :: 0 <= i < |chain| ==> chain[i] < |lib.heap| }

  predicate Orders(lib: Library, context: seq<VocId>) { forall i :: 0 <= i < |context| ==> context[i] < |lib.vocs| }

  // ----- the words -----

  predicate InState(e: Entry, v: View) { !(e.compilation && !v.compiling) && !(e.execution && v.compiling) }

  /** `visible` of an entry reached through vocabulary `voc`. */
  predicate Visible(e: Entry, voc: VocId, v: View) { InState(e, v) && !(e.private && Some(voc) != v.current) }

  /** `lookup` */
  function Search(lib: Library, voc: VocId, chain: seq<Id>, v: View, name: string): Opt<Id>
    requires Links(lib, chain)
  {
    if chain == [] then None
    else if lib.heap[chain[0]].name == name && Visible(lib.heap[chain[0]], voc, v) then Some(chain[0])
    else Search(lib, voc, chain[1..], v, name)
  }

  function SearchAll(lib: Library, context: seq<VocId>, v: View, name: string): Opt<Id>
    requires WellFormed(lib) && Orders(lib, context)
  {
    if context == [] then None
    else
      var r := Search(lib, context[0], lib.vocs[context[0]], v, name);
      if r.Some? then r else SearchAll(lib, context[1..], v, name)
  }

  function Linear(lib: Library, v: View, name: string): Opt<Id>
    requires WellFormed(lib)
  {
    SearchAll(lib, lib.context, v, name)
  }

  /** The test of the cached path leaves `PRIVATE` out. */
  predicate Hit(lib: Library, s: Session, name: string)
    requires |s.cache| == L.CACHESIZE
  {
    var slot := s.cache[L.Hash(name)];
    slot.Some? && slot.val < |lib.heap| && lib.heap[slot.val].name == name && InState(lib.heap[slot.val], s.view)
  }

  /** `find` */
  function Find(lib: Library, s: Session, name: string): (r: (Opt<Id>, Session))
    requires WellFormed(lib) && |s.cache| == L.CACHESIZE
    ensures |r.1.cache| == L.CACHESIZE && r.1.view == s.view
  {
    if Hit(lib, s, name) then (s.cache[L.Hash(name)], s)
    else
      var r := Linear(lib, s.view, name);
      (r, if r.Some? then s.(cache := s.cache[L.Hash(name) := r]) else s)
  }

  function First(lib: Library): Opt<VocId> { if lib.context == [] then None else Some(lib.context[0]) }

  /** `find`, `[` and `]`, `definitions`, and `restore` of nil. */
  datatype Step = SFind(name: string) | SState(compiling: bool) | SDefinitions | SFlush

  function Next(lib: Library, s: Session, step: Step): (r: Session)
    requires WellFormed(lib) && |s.cache| == L.CACHESIZE
    ensures |r.cache| == L.CACHESIZE
  {
    match step
    case SFind(name) => Find(lib, s, name).1
    case SState(c) => s.(view := s.view.(compiling := c))
    case SDefinitions => s.(view := s.view.(current := First(lib)))
    case SFlush => s.(cache := Cold())
  }

  function Cold(): (r: seq<Opt<Id>>)
    ensures |r| == L.CACHESIZE && forall i :: 0 <= i < |r| ==> r[i] == None
  {
    seq(L.CACHESIZE, _ => None)
  }

  function After(lib: Library, s: Session, steps: seq<Step>): (r: Session)
    requires WellFormed(lib) && |s.cache| == L.CACHESIZE
    ensures |r.cache| == L.CACHESIZE
    decreases |steps|
  {
    if steps == [] then s else After(lib, Next(lib, s, steps[0]), steps[1..])
  }

  /** What the modes mean: the entry of that name in front of everything else is the answer
      exactly when it is not limited to the other state and not private to a vocabulary that is
      not the current one. */
  lemma {:induction false} FrontAnswers(lib: Library, v: View, rest: seq<Id>)
    requires WellFormed(lib) && lib.context != []
    requires var chain := lib.vocs[lib.context[0]]; chain != [] && rest == chain[1..] && chain[0] !in rest
    requires forall i, k :: 1 <= i < |lib.context| && 0 <= k < |lib.vocs[lib.context[i]]| ==>
               lib.vocs[lib.context[i]][k] != lib.vocs[lib.context[0]][0]
    ensures var e := lib.vocs[lib.context[0]][0];
            var x := lib.heap[e];
            Linear(lib, v, x.name) == Some(e) <==>
              && (x.compilation ==> v.compiling)
              && (x.execution ==> !v.compiling)
              && (x.private ==> v.current == Some(lib.context[0]))
  {
    var e := lib.vocs[lib.context[0]][0];
    var name := lib.heap[e].name;
    FoundElsewhere(lib, lib.context[0], rest, v, name, e);
    FoundBehind(lib, lib.context[1..], v, name, e);
  }

  /** `definitions` opens the private words of the first vocabulary to every search, and
      `[` and `]` those of the state they lead to. */
  lemma {:induction false} OpenedByDefinitions(lib: Library, s: Session, compiling: bool, rest: seq<Id>)
    requires WellFormed(lib) && lib.context != [] && |s.cache| == L.CACHESIZE
    requires var chain := lib.vocs[lib.context[0]]; chain != [] && rest == chain[1..] && chain[0] !in rest
    requires forall i, k :: 1 <= i < |lib.context| && 0 <= k < |lib.vocs[lib.context[i]]| ==>
               lib.vocs[lib.context[i]][k] != lib.vocs[lib.context[0]][0]
    ensures var e := lib.vocs[lib.context[0]][0];
            var x, s' := lib.heap[e], Next(lib, Next(lib, s, SDefinitions), SState(compiling));
            Linear(lib, s'.view, x.name) == Some(e) <==> if compiling then !x.execution else !x.compilation
  {
    FrontAnswers(lib, Next(lib, Next(lib, s, SDefinitions), SState(compiling)).view, rest);
  }

  lemma {:induction false} FoundElsewhere(lib: Library, voc: VocId, chain: seq<Id>, v: View, name: string, e: Id)
    requires Links(lib, chain) && e !in chain
    ensures Search(lib, voc, chain, v, name) != Some(e)
  {
    if chain != [] { FoundElsewhere(lib, voc, chain[1..], v, name, e); }
  }

  lemma {:induction false} FoundBehind(lib: Library, context: seq<VocId>, v: View, name: string, e: Id)
    requires WellFormed(lib) && Orders(lib, context)
    requires forall i, k :: 0 <= i < |context| && 0 <= k < |lib.vocs[context[i]]| ==> lib.vocs[context[i]][k] != e
    ensures SearchAll(lib, context, v, name) != Some(e)
  {
    if context != [] {
      FoundElsewhere(lib, context[0], lib.vocs[context[0]], v, name, e);
      FoundBehind(lib, context[1..], v, name, e);
    }
  }

  // ----- the search order as one list -----

  datatype Place = Place(voc: VocId, e: Id)

  ghost predicate Places(lib: Library, order: seq<Place>) {
    forall i :: 0 <= i < |order| ==> order[i].e < |lib.heap|
  }

  function Chain(lib: Library, voc: VocId, chain: seq<Id>): (r: seq<Place>)
    requires Links(lib, chain)
    ensures Places(lib, r)
  {
    if chain == [] then [] else [Place(voc, chain[0])] + Chain(lib, voc, chain[1..])
  }

  function Order(lib: Library, context: seq<VocId>): (r: seq<Place>)
    requires WellFormed(lib) && Orders(lib, context)
    ensures Places(lib, r)
  {
    if context == [] then [] else Chain(lib, context[0], lib.vocs[context[0]]) + Order(lib, context[1..])
  }

  /** The place answers a search for the name. */
  predicate Answers(lib: Library, p: Place, v: View, name: string)
    requires p.e < |lib.heap|
  {
    lib.heap[p.e].name == name && Visible(lib.heap[p.e], p.voc, v)
  }

  /** Place `k` is the first to answer a search for its own name. */
  ghost predicate FoundAt(lib: Library, order: seq<Place>, k: nat, v: View)
    requires Places(lib, order) && k < |order|
  {
    var name := lib.heap[order[k].e].name;
    Answers(lib, order[k], v, name) && forall j :: 0 <= j < k ==> !Answers(lib, order[j], v, name)
  }

  function FirstIn(lib: Library, order: seq<Place>, v: View, name: string): Opt<Id>
    requires Places(lib, order)
  {
    if order == [] then None
    else if Answers(lib, order[0], v, name) then Some(order[0].e)
    else FirstIn(lib, order[1..], v, name)
  }

  lemma {:induction false} FirstAppend(lib: Library, x: seq<Place>, y: seq<Place>, v: View, name: string)
    requires Places(lib, x) && Places(lib, y)
    ensures Places(lib, x + y)
    ensures var r := FirstIn(lib, x, v, name);
            FirstIn(lib, x + y, v, name) == if r.Some? then r else FirstIn(lib, y, v, name)
  {
    if x == [] {
      assert x + y == y;
    } else {
      assert (x + y)[1..] == x[1..] + y;
      FirstAppend(lib, x[1..], y, v, name);
    }
  }

  lemma {:induction false} SearchIsFirst(lib: Library, voc: VocId, chain: seq<Id>, v: View, name: string)
    requires Links(lib, chain)
    ensures Search(lib, voc, chain, v, name) == FirstIn(lib, Chain(lib, voc, chain), v, name)
  {
    if chain != [] {
      SearchIsFirst(lib, voc, chain[1..], v, name);
      assert Chain(lib, voc, chain)[1..] == Chain(lib, voc, chain[1..]);
    }
  }

  lemma {:induction false} SearchAllIsFirst(lib: Library, context: seq<VocId>, v: View, name: string)
    requires WellFormed(lib) && Orders(lib, context)
    ensures SearchAll(lib, context, v, name) == FirstIn(lib, Order(lib, context), v, name)
  {
    if context != [] {
      SearchIsFirst(lib, context[0], lib.vocs[context[0]], v, name);
      SearchAllIsFirst(lib, context[1..], v, name);
      FirstAppend(lib, Chain(lib, context[0], lib.vocs[context[0]]), Order(lib, context[1..]), v, name);
    }
  }

  lemma {:induction false} FirstIsFound(lib: Library, order: seq<Place>, v: View, name: string) returns (k: nat)
    requires Places(lib, order) && FirstIn(lib, order, v, name).Some?
    ensures k < |order| && FoundAt(lib, order, k, v) && lib.heap[order[k].e].name == name
    ensures FirstIn(lib, order, v, name) == Some(order[k].e)
  {
    if Answers(lib, order[0], v, name) {
      k := 0;
    } else {
      var i := FirstIsFound(lib, order[1..], v, name);
      k := i + 1;
      forall j | 0 <= j < k ensures !Answers(lib, order[j], v, name) {
        if j > 0 { assert order[1..][j - 1] == order[j]; }
      }
    }
  }

  lemma {:induction false} FoundIsFirst(lib: Library, order: seq<Place>, k: nat, v: View)
    requires Places(lib, order) && k < |order| && FoundAt(lib, order, k, v)
    ensures FirstIn(lib, order, v, lib.heap[order[k].e].name) == Some(order[k].e)
  {
    if k > 0 {
      var name := lib.heap[order[k].e].name;
      assert !Answers(lib, order[0], v, name);
      forall j | 0 <= j < k - 1 ensures !Answers(lib, order[1..][j], v, name) { assert order[1..][j] == order[j + 1]; }
      FoundIsFirst(lib, order[1..], k - 1, v);
    }
  }

  // ----- when the cache can be trusted -----

  /** `definitions` may have been executed in between. */
  predicate Leads(lib: Library, c: Opt<VocId>, d: Opt<VocId>) { d == c || d == First(lib) }

  /** No change of state and no `definitions` uncovers an earlier entry of the same name, or
      hides an entry, while the cached path still takes it. */
  ghost predicate Steady(lib: Library, c: Opt<VocId>)
    requires WellFormed(lib)
  {
    var order := Order(lib, lib.context);
    forall k: nat, a: View, b: View ::
      (k < |order| && Leads(lib, c, a.current) && Leads(lib, a.current, b.current) &&
       FoundAt(lib, order, k, a) && InState(lib.heap[order[k].e], b)) ==> FoundAt(lib, order, k, b)
  }

  /** Every slot holds what linear search found in an earlier view. */
  ghost predicate Sound(lib: Library, c: Opt<VocId>, s: Session)
    requires WellFormed(lib)
  {
    && |s.cache| == L.CACHESIZE && Leads(lib, c, s.view.current)
    && forall h :: 0 <= h < L.CACHESIZE && s.cache[h].Some? ==> FromView(lib, c, s.cache[h].val, s.view.current)
  }

  ghost predicate FromView(lib: Library, c: Opt<VocId>, e: Id, now: Opt<VocId>)
    requires WellFormed(lib)
  {
    && e < |lib.heap|
    && exists a: View :: Leads(lib, c, a.current) && Leads(lib, a.current, now) &&
                         Linear(lib, a, lib.heap[e].name) == Some(e)
  }

  lemma {:induction false} LinearIsOfName(lib: Library, v: View, name: string)
    requires WellFormed(lib) && Linear(lib, v, name).Some?
    ensures var e := Linear(lib, v, name).val; e < |lib.heap| && lib.heap[e].name == name
  {
    SearchAllIsFirst(lib, lib.context, v, name);
    var k := FirstIsFound(lib, Order(lib, lib.context), v, name);
  }

  lemma {:induction false} NextSound(lib: Library, c: Opt<VocId>, s: Session, step: Step)
    requires WellFormed(lib) && Sound(lib, c, s)
    ensures Sound(lib, c, Next(lib, s, step))
  {
    hide Linear, InState;
    var t := Next(lib, s, step);
    if step.SFind? && Linear(lib, s.view, step.name).Some? { LinearIsOfName(lib, s.view, step.name); }
    forall h | 0 <= h < L.CACHESIZE && t.cache[h].Some?
      ensures FromView(lib, c, t.cache[h].val, t.view.current)
    {
      if s.cache[h] == t.cache[h] {
        var e := s.cache[h].val;
        var a: View :| Leads(lib, c, a.current) && Leads(lib, a.current, s.view.current) &&
                       Linear(lib, a, lib.heap[e].name) == Some(e);
        assert Leads(lib, a.current, t.view.current);
      } else {
        assert Leads(lib, c, s.view.current) && Leads(lib, s.view.current, t.view.current);
      }
    }
  }

  lemma {:induction false} AfterSound(lib: Library, c: Opt<VocId>, s: Session, steps: seq<Step>)
    requires WellFormed(lib) && Sound(lib, c, s)
    ensures Sound(lib, c, After(lib, s, steps))
    decreases |steps|
  {
    if steps != [] {
      NextSound(lib, c, s, steps[0]);
      AfterSound(lib, c, Next(lib, s, steps[0]), steps[1..]);
    }
  }

  /** What an earlier view found and the state still allows is found now. */
  lemma {:induction false} SteadyAnswer(lib: Library, c: Opt<VocId>, a: View, b: View, name: string)
    requires WellFormed(lib) && Steady(lib, c)
    requires Leads(lib, c, a.current) && Leads(lib, a.current, b.current) && Linear(lib, a, name).Some?
    requires var e := Linear(lib, a, name).val; e < |lib.heap| && InState(lib.heap[e], b)
    ensures Linear(lib, b, name) == Linear(lib, a, name)
  {
    var order := Order(lib, lib.context);
    SearchAllIsFirst(lib, lib.context, a, name);
    SearchAllIsFirst(lib, lib.context, b, name);
    var k := FirstIsFound(lib, order, a, name);
    assert FoundAt(lib, order, k, b);
    FoundIsFirst(lib, order, k, b);
  }

  lemma {:induction false} FindRight(lib: Library, c: Opt<VocId>, s: Session, name: string)
    requires WellFormed(lib) && Steady(lib, c) && Sound(lib, c, s)
    ensures Find(lib, s, name).0 == Linear(lib, s.view, name)
  {
    if Hit(lib, s, name) {
      var e := s.cache[L.Hash(name)].val;
      assert FromView(lib, c, e, s.view.current);
      var a: View :| Leads(lib, c, a.current) && Leads(lib, a.current, s.view.current) &&
                     Linear(lib, a, lib.heap[e].name) == Some(e);
      SteadyAnswer(lib, c, a, s.view, name);
    }
  }

  /** Every `find` of every session that starts with a cold cache answers as linear search. */
  ghost predicate AlwaysRight(lib: Library, c: Opt<VocId>)
    requires WellFormed(lib)
  {
    forall x: bool, steps: seq<Step>, name: string :: RightAfter(lib, c, x, steps, name)
  }

  predicate RightAfter(lib: Library, c: Opt<VocId>, x: bool, steps: seq<Step>, name: string)
    requires WellFormed(lib)
  {
    var s := After(lib, Session(View(x, c), Cold()), steps);
    Find(lib, s, name).0 == Linear(lib, s.view, name)
  }

  function To(lib: Library, c: Opt<VocId>, v: View): seq<Step> {
    [SState(v.compiling)] + if v.current == c then [] else [SDefinitions]
  }

  lemma {:induction false} Turned(lib: Library, s: Session, v: View)
    requires WellFormed(lib) && |s.cache| == L.CACHESIZE && Leads(lib, s.view.current, v.current)
    ensures After(lib, s, To(lib, s.view.current, v)) == s.(view := v)
  {
    var t := s.(view := s.view.(compiling := v.compiling));
    assert Next(lib, s, SState(v.compiling)) == t;
    if v.current == s.view.current {
      assert To(lib, s.view.current, v)[1..] == [];
    } else {
      assert To(lib, s.view.current, v)[1..] == [SDefinitions];
      assert [SDefinitions][1..] == [];
      assert Next(lib, t, SDefinitions) == s.(view := v);
    }
  }

  lemma {:induction false} AfterAppend(lib: Library, s: Session, x: seq<Step>, y: seq<Step>)
    requires WellFormed(lib) && |s.cache| == L.CACHESIZE
    ensures After(lib, s, x + y) == After(lib, After(lib, s, x), y)
    decreases |x|
  {
    if x == [] {
      assert x + y == y;
    } else {
      assert (x + y)[1..] == x[1..] + y;
      AfterAppend(lib, Next(lib, s, x[0]), x[1..], y);
    }
  }

  /** Find in view `a`, go to view `b`: the answer of `a` is still there if the state allows. */
  lemma {:induction false} OldAnswer(lib: Library, c: Opt<VocId>, a: View, b: View, name: string)
    requires WellFormed(lib) && Leads(lib, c, a.current) && Leads(lib, a.current, b.current)
    requires Linear(lib, a, name).Some?
    requires var e := Linear(lib, a, name).val; e < |lib.heap| && lib.heap[e].name == name && InState(lib.heap[e], b)
    ensures var s := After(lib, Session(View(a.compiling, c), Cold()),
                           To(lib, c, a) + [SFind(name)] + To(lib, a.current, b));
            s.view == b && Find(lib, s, name).0 == Linear(lib, a, name)
  {
    var s0 := Session(View(a.compiling, c), Cold());
    var s1 := s0.(view := a);
    AfterAppend(lib, s0, To(lib, c, a) + [SFind(name)], To(lib, a.current, b));
    AfterAppend(lib, s0, To(lib, c, a), [SFind(name)]);
    Turned(lib, s0, a);
    var s2 := Find(lib, s1, name).1;
    assert After(lib, s1, [SFind(name)]) == s2 by { assert [SFind(name)][1..] == []; }
    Turned(lib, s2, b);
  }

  /** Each entry once in the search order. */
  ghost predicate NoRepeats(order: seq<Place>) {
    forall i, j :: 0 <= i < j < |order| ==> order[i].e != order[j].e
  }

  /** Theorem: with the entries and the search order left alone, cached `find` is linear search
      in every session if and only if the dictionary is steady. */
  lemma {:induction false} RightIffSteady(lib: Library, c: Opt<VocId>)
    requires WellFormed(lib) && NoRepeats(Order(lib, lib.context))
    ensures AlwaysRight(lib, c) <==> Steady(lib, c)
  {
    if Steady(lib, c) {
      forall x: bool, steps: seq<Step>, name: string ensures RightAfter(lib, c, x, steps, name) {
        AfterSound(lib, c, Session(View(x, c), Cold()), steps);
        FindRight(lib, c, After(lib, Session(View(x, c), Cold()), steps), name);
      }
    }
    if AlwaysRight(lib, c) { RightIsSteady(lib, c); }
  }

  lemma {:induction false} RightIsSteady(lib: Library, c: Opt<VocId>)
    requires WellFormed(lib) && NoRepeats(Order(lib, lib.context))
    requires AlwaysRight(lib, c)
    ensures Steady(lib, c)
  {
    var order := Order(lib, lib.context);
    forall k: nat, a: View, b: View |
      k < |order| && Leads(lib, c, a.current) && Leads(lib, a.current, b.current) &&
      FoundAt(lib, order, k, a) && InState(lib.heap[order[k].e], b)
      ensures FoundAt(lib, order, k, b)
    {
      var name := lib.heap[order[k].e].name;
      FoundIsFirst(lib, order, k, a);
      SearchAllIsFirst(lib, lib.context, a, name);
      SearchAllIsFirst(lib, lib.context, b, name);
      OldAnswer(lib, c, a, b, name);
      assert RightAfter(lib, c, a.compiling, To(lib, c, a) + [SFind(name)] + To(lib, a.current, b), name);
      var i := FirstIsFound(lib, order, b, name);
      assert order[i].e == order[k].e;
    }
  }

  /** A word limited to compilation in front of an ordinary one of the same name: found while
      executing, the ordinary one is still found while compiling. */
  lemma {:induction false} OneStateStale(name: string)
    ensures var lib := Library([Entry(name, false, false, false), Entry(name, false, true, false)], [[1, 0]], [0]);
            WellFormed(lib) && !AlwaysRight(lib, Some(0))
  {
    var lib := Library([Entry(name, false, false, false), Entry(name, false, true, false)], [[1, 0]], [0]);
    var a, b := View(false, Some(0)), View(true, Some(0));
    assert lib.vocs[0][1..] == [0];
    assert Search(lib, 0, [0], a, name) == Some(0);
    assert Linear(lib, a, name) == Some(0) && Linear(lib, b, name) == Some(1);
    OldAnswer(lib, Some(0), a, b, name);
    assert !RightAfter(lib, Some(0), false, To(lib, Some(0), a) + [SFind(name)] + To(lib, a.current, b), name);
  }

  /** A private word found while its vocabulary took the new definitions is still found after
      `definitions` has chosen another. */
  lemma {:induction false} PrivateStale(name: string)
    ensures var lib := Library([Entry(name, false, false, true)], [[], [0]], [0, 1]);
            WellFormed(lib) && !AlwaysRight(lib, Some(1))
  {
    var lib := Library([Entry(name, false, false, true)], [[], [0]], [0, 1]);
    var a, b := View(false, Some(1)), View(false, Some(0));
    assert lib.context[1..] == [1] && [1][1..] == [] && lib.vocs[1][1..] == [];
    assert Search(lib, 1, lib.vocs[1], b, name) == Search(lib, 1, [], b, name) == None;
    assert SearchAll(lib, [1], a, name) == Some(0) && SearchAll(lib, [1], b, name) == None;
    assert Linear(lib, a, name) == Some(0) && Linear(lib, b, name) == None;
    OldAnswer(lib, Some(1), a, b, name);
    assert !RightAfter(lib, Some(1), false, To(lib, Some(1), a) + [SFind(name)] + To(lib, a.current, b), name);
  }

  /** Without private entries and entries of one state the cache is always right. */
  lemma {:induction false} PlainIsSteady(lib: Library, c: Opt<VocId>)
    requires WellFormed(lib)
    requires forall e :: e in lib.heap ==> !e.private && !e.execution && !e.compilation
    ensures Steady(lib, c)
  {
    var order := Order(lib, lib.context);
    forall k: nat, a: View, b: View | k < |order| && FoundAt(lib, order, k, a)
      ensures FoundAt(lib, order, k, b)
    {
      var name := lib.heap[order[k].e].name;
      forall j | 0 <= j <= k ensures Answers(lib, order[j], b, name) == Answers(lib, order[j], a, name) {
        assert lib.heap[order[j].e] in lib.heap;
      }
    }
  }
}
