/** Whole programs: a list of colon definitions compiled one after the other, and what the
    interpreter does with the result. */
module Programs {
  import opened ControlSyntax
  import opened ControlCompiler
  import opened OnePass
  import opened ThreadedCode
  import opened Options
  import opened Structured
  import opened CompilerCorrectness
  import opened TailRecursion

  /** A program under construction: the compiler between definitions and the body address of
      each finished entry. */
  datatype Program = Program(s: CState, entry: seq<int>) | Aborted

  /** `:` opens an entry at `here`; `;` threads `(;)` and remembers what `macro` would copy. */
  function Define(p: Program, ws: seq<Word>): Program
    requires p.Program?
  {
    var s1 := p.s.(self := |p.entry|, start := |p.s.dict|, marked := [], resolved := []);
    var r := CompileWords(s1, ws);
    if r.Ok? && s1.start <= |r.s.dict| then
      var m := Macro(s1.start, |r.s.dict| - s1.start);
      Program(Thread(r.s.(macros := r.s.macros + [m]), Semi), p.entry + [s1.start])
    else Aborted
  }

  function DefineAll(p: Program, wss: seq<seq<Word>>): Program
    decreases |wss|
  {
    if p.Aborted? || wss == [] then p else DefineAll(Define(p, wss[0]), wss[1..])
  }

  /** Sources of the definitions from `k` on. */
  function Sources(defs: seq<Stmt>, k: nat): seq<seq<Word>>
    requires k <= |defs|
    decreases |defs| - k
  {
    if k == |defs| then [] else [Flatten(defs[k])] + Sources(defs, k + 1)
  }

  /** Every definition is proper and uses only macros defined before it. */
  ghost predicate Sensible(defs: seq<Stmt>) {
    forall k :: 0 <= k < |defs| ==> Proper(defs[k]) && MacrosKnown(defs[k], k)
  }

  /** The first `k` definitions are in place. */
  ghost predicate Built(p: Program, defs: seq<Stmt>, k: nat, cs: seq<int>) {
    && p.Program? && k <= |defs| && |p.entry| == k && |p.s.macros| == k && p.s.cs == cs
    && (forall d :: 0 <= d < k ==> CellsAt(p.s.dict, p.entry[d], Body(defs, d) + [Tok(Semi)]))
    && (forall d :: 0 <= d < k ==> p.s.macros[d] == Macro(p.entry[d], |Body(defs, d)|))
  }

  lemma {:induction false} DefineBuilds(p: Program, defs: seq<Stmt>, k: nat, cs: seq<int>)
    requires Sensible(defs) && k < |defs| && Built(p, defs, k, cs)
    ensures Built(Define(p, Flatten(defs[k])), defs, k + 1, cs)
  {
    var s1 := p.s.(self := k, start := |p.s.dict|, marked := [], resolved := []);
    var u := Unit(k, Bodies(defs, k));
    ReadyToDefine(p, defs, k, cs, s1, u);
    OnePassIsStructured(s1, defs[k], u, 0);
    hide CompileWords, MacrosMatch, Emit, CellsAt;
    var q := Define(p, Flatten(defs[k]));
    assert q.s.dict == p.s.dict + (Body(defs, k) + [Tok(Semi)]);
    forall d | 0 <= d < k + 1
      ensures CellsAt(q.s.dict, q.entry[d], Body(defs, d) + [Tok(Semi)])
    {
      CellsStay(p.s.dict, Body(defs, k) + [Tok(Semi)], q.entry[d], Body(defs, d) + [Tok(Semi)]);
    }
  }

  lemma {:induction false} CellsStay(mem: seq<Cell>, more: seq<Cell>, a: int, cells: seq<Cell>)
    ensures CellsAt(mem, a, cells) ==> CellsAt(mem + more, a, cells)
    ensures CellsAt(mem + more, |mem|, more)
  {
    if CellsAt(mem, a, cells) { assert (mem + more)[a..a + |cells|] == mem[a..a + |cells|]; }
  }

  lemma {:induction false} ReadyToDefine(p: Program, defs: seq<Stmt>, k: nat, cs: seq<int>, s1: CState, u: Unit)
    requires k < |defs| && Built(p, defs, k, cs)
    requires s1 == p.s.(self := k, start := |p.s.dict|, marked := [], resolved := [])
    requires u == Unit(k, Bodies(defs, k))
    ensures At(s1, u, 0)
  {
    hide Emit;
    forall d | 0 <= d < k
      ensures s1.macros[d].body + s1.macros[d].size <= |s1.dict|
      ensures s1.dict[s1.macros[d].body..s1.macros[d].body + s1.macros[d].size] == u.bodies[d]
    {
      CellsSplit(p.s.dict, p.entry[d], Body(defs, d), [Tok(Semi)]);
    }
  }

  lemma {:induction false} DefineAllBuilds(p: Program, defs: seq<Stmt>, k: nat, cs: seq<int>)
    requires Sensible(defs) && k <= |defs| && Built(p, defs, k, cs)
    ensures Built(DefineAll(p, Sources(defs, k)), defs, |defs|, cs)
    decreases |defs| - k
  {
    if k < |defs| {
      DefineBuilds(p, defs, k, cs);
      DefineAllBuilds(Define(p, Flatten(defs[k])), defs, k + 1, cs);
      assert Sources(defs, k)[1..] == Sources(defs, k + 1);
    }
  }

  /** The compiler with an empty dictionary above a parameter stack `cs`. */
  function Empty(cs: seq<int>): Program {
    Program(CState([], cs, 0, 0, [], [], []), [])
  }

  /** Compiling the sources of a sensible program never aborts, leaves the parameter stack
      alone, and puts each definition's structured code at its entry. */
  lemma {:induction false} ProgramLoads(sem: Sem, defs: seq<Stmt>, cs: seq<int>)
    requires Sensible(defs)
    ensures var p := DefineAll(Empty(cs), Sources(defs, 0));
            p.Program? && p.s.cs == cs && Loaded(Image(sem, p.s.dict, p.entry), defs)
  {
    DefineAllBuilds(Empty(cs), defs, 0, cs);
  }

  /** The image that compiling the sources produces. */
  function Compiled(sem: Sem, defs: seq<Stmt>): Image {
    var p := DefineAll(Empty([0]), Sources(defs, 0));
    if p.Program? then Image(sem, p.s.dict, p.entry) else Image(sem, [], [])
  }

  /** Address the outermost return goes to; no cell is there, so the machine stops. */
  const HALT: int := -1

  function Start(w: Image, d: nat, ds: seq<int>): State
    requires d < |w.entry|
  {
    State(w.entry[d], ds, [HALT])
  }

  ghost predicate Halts(w: Image, s: State) {
    exists n: nat :: Run(w, n, s).Some? && Step(w, Run(w, n, s).val).None?
  }

  /** Compiler correctness, terminating runs: the interpreter stops with the parameter stack
      the source computes and an empty return stack. */
  lemma {:induction false} CompilerCorrect(sem: Sem, defs: seq<Stmt>, d: nat, ds: seq<int>, f: nat)
    requires Sensible(defs) && d < |defs| && Enter(sem, defs, f, d, ds).Done?
    ensures var w := Compiled(sem, defs);
            && d < |w.entry|
            && Reaches(w, Start(w, d, ds), State(HALT, Enter(sem, defs, f, d, ds).ds, []))
            && Halts(w, Start(w, d, ds))
  {
    ProgramLoads(sem, defs, [0]);
    var w := Compiled(sem, defs);
    SimEnter(w, defs, f, d, ds, [HALT]);
    var t := State(HALT, Enter(sem, defs, f, d, ds).ds, []);
    assert [HALT][1..] == [];
    var n: nat :| Run(w, n, Start(w, d, ds)) == Some(t);
    assert Step(w, t) == None;
  }

  /** Compiler correctness, both ways: a program that never goes wrong halts on the machine
      if and only if its structured evaluation terminates. */
  lemma {:induction false} HaltsIffTerminates(sem: Sem, defs: seq<Stmt>, d: nat, ds: seq<int>)
    requires Sensible(defs) && d < |defs|
    requires forall f: nat :: !Enter(sem, defs, f, d, ds).Wrong?
    ensures var w := Compiled(sem, defs);
            && d < |w.entry|
            && (Halts(w, Start(w, d, ds)) <==> exists f: nat :: Enter(sem, defs, f, d, ds).Done?)
  {
    ProgramLoads(sem, defs, [0]);
    var w := Compiled(sem, defs);
    assert |w.entry| == |defs|;
    hide Eval, Enter, Loaded, Sensible, Compiled, DefineAll, Sources, Run, Step;
    var s := Start(w, d, ds);
    if f: nat :| Enter(sem, defs, f, d, ds).Done? {
      CompilerCorrect(sem, defs, d, ds, f);
    } else if n: nat :| Run(w, n, s).Some? && Step(w, Run(w, n, s).val).None? {
      SimEnter(w, defs, n + 1, d, ds, [HALT]);
      assert Enter(sem, defs, n + 1, d, ds).Timeout?;
      RunAdd(w, n, 1, s);
      assert false;
    }
  }

  // ----- tail-recurse -----

  /** The start of round `k` of a body whose earlier rounds all end with `tail-recurse`: the
      parameter stack, and the number of counted loops they have left open. */
  datatype Begun = Begun(ds: seq<int>, open: nat)

  function Round(sem: Sem, defs: seq<Stmt>, f: nat, d: nat, ds: seq<int>, k: nat): Opt<Begun>
    requires d < |defs|
    decreases k
  {
    if k == 0 then Some(Begun(ds, 0))
    else
      var r := Eval(sem, defs, f, d, defs[d], ds, []);
      if !(r.Done? && r.how.Restarted?) then None
      else
        var t := Round(sem, defs, f, d, r.ds, k - 1);
        if t.Some? then Some(Begun(t.val.ds, r.how.deep + t.val.open)) else None
  }

  /** Wherever `tail-recurse` stands in the body, the machine starts every round at the same
      entry, with three more cells on the return stack for every counted loop left open: so the
      return stack is the one the word was called with if and only if none was. */
  lemma {:induction false} TailRecurseDepth(w: Image, defs: seq<Stmt>, f: nat, d: nat, ds: seq<int>, rs: seq<int>,
                                            k: nat) returns (rs': seq<int>)
    requires d < |defs| && Loaded(w, defs) && rs != [] && Round(w.sem, defs, f, d, ds, k).Some?
    ensures var t := Round(w.sem, defs, f, d, ds, k).val;
            && |rs'| == |rs| + 3 * t.open && rs'[3 * t.open..] == rs && (rs' == rs <==> t.open == 0)
            && Reaches(w, State(w.entry[d], ds, rs), State(w.entry[d], t.ds, rs'))
            && (k > 0 ==> Arrives(w, State(w.entry[d], ds, rs), State(w.entry[d], t.ds, rs')))
    decreases k
  {
    assert |w.entry| == |defs|;
    var s := State(w.entry[d], ds, rs);
    ReachSelf(w, s);
    rs' := rs;
    if k > 0 {
      var n, rs1 := OneRound(w, defs, f, d, ds, rs);
      var r := Eval(w.sem, defs, f, d, defs[d], ds, []);
      rs' := TailRecurseDepth(w, defs, f, d, r.ds, rs1, k - 1);
      var t := Round(w.sem, defs, f, d, ds, k).val;
      assert rs'[3 * t.open..] == rs'[3 * (t.open - n)..][3 * n..];
      hide Loaded, Step, Eval, Round;
      ArrivesReaches(w, s, State(w.entry[d], r.ds, rs1), State(w.entry[d], t.ds, rs'));
    }
  }

  lemma {:induction false} OneRound(w: Image, defs: seq<Stmt>, f: nat, d: nat, ds: seq<int>, rs: seq<int>)
    returns (n: nat, rs': seq<int>)
    requires d < |defs| && Loaded(w, defs) && rs != []
    requires var r := Eval(w.sem, defs, f, d, defs[d], ds, []); r.Done? && r.how.Restarted?
    ensures var r := Eval(w.sem, defs, f, d, defs[d], ds, []);
            && n == r.how.deep && |rs'| == |rs| + 3 * n && rs'[3 * n..] == rs && (n == 0 ==> rs' == rs)
            && Arrives(w, State(w.entry[d], ds, rs), State(w.entry[d], r.ds, rs'))
  {
    assert |w.entry| == |defs|;
    CellsSplit(w.mem, w.entry[d], Body(defs, d), [Tok(Semi)]);
    Simulation(w, defs, f, d, defs[d], w.entry[d], 0, ds, rs, []);
    hide Loaded, Step, Eval, Arrives;
    var r := Eval(w.sem, defs, f, d, defs[d], ds, []);
    n := r.how.deep;
    rs' :| Deeper(rs', rs, n, 0) && Arrives(w, State(w.entry[d], ds, rs), State(w.entry[d], r.ds, rs'));
    assert rs[0..] == rs && rs'[0..] == rs';
  }

  /** No `tail-recurse` under a counted loop. */
  predicate Unlooped(c: Stmt, inside: bool) {
    match c
    case Skip => true
    case Seq(a, b) => Unlooped(a, inside) && Unlooped(b, inside)
    case Atom(w) => !(inside && w.WTailRecurse?)
    case If(t) => Unlooped(t, inside)
    case IfElse(t, e) => Unlooped(t, inside) && Unlooped(e, inside)
    case Again(b) => Unlooped(b, inside)
    case Until(b) => Unlooped(b, inside)
    case While(t, b) => Unlooped(t, inside) && Unlooped(b, inside)
    case Case(arms) => UnloopedArms(arms, inside)
    case Do(_, b, _) => Unlooped(b, true)
  }

  predicate UnloopedArms(arms: Arms, inside: bool) {
    match arms
    case Default(d) => Unlooped(d, inside)
    case Arm(p, b, rest) => Unlooped(p, inside) && Unlooped(b, inside) && UnloopedArms(rest, inside)
  }

  ghost predicate RestartsOutside(r: Res, inside: bool, n: nat) {
    r.Done? && r.how.Restarted? ==> !inside && r.how.deep == n
  }

  lemma {:induction false} UnloopedRestarts(sem: Sem, defs: seq<Stmt>, f: nat, self: nat, c: Stmt, inside: bool,
                                            ds: seq<int>, loops: seq<Loop>)
    requires Unlooped(c, inside)
    ensures RestartsOutside(Eval(sem, defs, f, self, c, ds, loops), inside, |loops|)
    decreases f, self, c, 1
  {
    match c
    case Skip =>
    case Seq(a, b) =>
      UnloopedRestarts(sem, defs, f, self, a, inside, ds, loops);
      var r := Eval(sem, defs, f, self, a, ds, loops);
      if r.Done? { UnloopedRestarts(sem, defs, f, self, b, inside, r.ds, loops); }
    case Atom(w) =>
      if w.WMacro? && w.d < self && w.d < |defs| && Copyable(defs[w.d]) {
        CopyableNeverReturns(sem, defs, f, w.d, defs[w.d], ds, loops);
      }
      assert RestartsOutside(EvalAtom(sem, defs, f, self, w, ds, loops), inside, |loops|);
    case If(t) => if ds != [] { UnloopedRestarts(sem, defs, f, self, t, inside, ds[1..], loops); }
    case IfElse(t, e) =>
      if ds != [] { UnloopedRestarts(sem, defs, f, self, if ds[0] != 0 then t else e, inside, ds[1..], loops); }
    case Again(b) =>
      UnloopedRestarts(sem, defs, f, self, b, inside, ds, loops);
      var r := Eval(sem, defs, f, self, b, ds, loops);
      if r.Done? && f > 0 { UnloopedRestarts(sem, defs, f - 1, self, c, inside, r.ds, loops); }
    case Until(b) =>
      UnloopedRestarts(sem, defs, f, self, b, inside, ds, loops);
      var r := Eval(sem, defs, f, self, b, ds, loops);
      if r.Done? && r.ds != [] && f > 0 { UnloopedRestarts(sem, defs, f - 1, self, c, inside, r.ds[1..], loops); }
    case While(t, b) =>
      UnloopedRestarts(sem, defs, f, self, t, inside, ds, loops);
      var r := Eval(sem, defs, f, self, t, ds, loops);
      if r.Done? && r.ds != [] {
        UnloopedRestarts(sem, defs, f, self, b, inside, r.ds[1..], loops);
        var r2 := Eval(sem, defs, f, self, b, r.ds[1..], loops);
        if r2.Done? && f > 0 { UnloopedRestarts(sem, defs, f - 1, self, c, inside, r2.ds, loops); }
      }
    case Case(arms) => UnloopedArmsRestart(sem, defs, f, self, arms, inside, ds, loops);
    case Do(_, b, p) =>
      if |ds| >= 2 { UnloopedDoRestarts(sem, defs, f, self, b, p, ds[2..], Loop(ds[1], ds[0]), loops); }
  }

  lemma {:induction false} UnloopedArmsRestart(sem: Sem, defs: seq<Stmt>, f: nat, self: nat, arms: Arms, inside: bool,
                                               ds: seq<int>, loops: seq<Loop>)
    requires UnloopedArms(arms, inside)
    ensures RestartsOutside(EvalArms(sem, defs, f, self, arms, ds, loops), inside, |loops|)
    decreases f, self, arms, 1
  {
    match arms
    case Default(d) => UnloopedRestarts(sem, defs, f, self, d, inside, ds, loops);
    case Arm(p, b, rest) =>
      UnloopedRestarts(sem, defs, f, self, p, inside, ds, loops);
      var r := Eval(sem, defs, f, self, p, ds, loops);
      if r.Done? && |r.ds| >= 2 {
        UnloopedRestarts(sem, defs, f, self, b, inside, r.ds[2..], loops);
        UnloopedArmsRestart(sem, defs, f, self, rest, inside, r.ds[1..], loops);
      }
  }

  lemma {:induction false} UnloopedDoRestarts(sem: Sem, defs: seq<Stmt>, f: nat, self: nat, b: Stmt, plus: bool,
                                              ds: seq<int>, l: Loop, loops: seq<Loop>)
    requires Unlooped(b, true)
    ensures var r := EvalDo(sem, defs, f, self, b, plus, ds, l, loops); r.Done? ==> !r.how.Restarted?
    decreases f, self, b, 2
  {
    UnloopedRestarts(sem, defs, f, self, b, true, ds, [l] + loops);
    var t := AfterTurn(Eval(sem, defs, f, self, b, ds, [l] + loops), plus, l);
    if t.Next? && f > 0 { UnloopedDoRestarts(sem, defs, f - 1, self, b, plus, t.ds, t.loop, loops); }
  }

  lemma {:induction false} UnloopedRounds(sem: Sem, defs: seq<Stmt>, f: nat, d: nat, ds: seq<int>, k: nat)
    requires d < |defs| && Unlooped(defs[d], false) && Round(sem, defs, f, d, ds, k).Some?
    ensures Round(sem, defs, f, d, ds, k).val.open == 0
    decreases k
  {
    if k > 0 {
      UnloopedRestarts(sem, defs, f, d, defs[d], false, ds, []);
      UnloopedRounds(sem, defs, f, d, Eval(sem, defs, f, d, defs[d], ds, []).ds, k - 1);
    }
  }

  /** The guard a programmer can check: with no `tail-recurse` under a loop of the body, every
      round starts on the very return stack of the first. */
  lemma {:induction false} TailRecurseKeepsDepth(w: Image, defs: seq<Stmt>, f: nat, d: nat, ds: seq<int>,
                                                 rs: seq<int>, k: nat)
    requires d < |defs| && Loaded(w, defs) && rs != [] && Round(w.sem, defs, f, d, ds, k).Some?
    requires Unlooped(defs[d], false)
    ensures var t := State(w.entry[d], Round(w.sem, defs, f, d, ds, k).val.ds, rs);
            Reaches(w, State(w.entry[d], ds, rs), t) && (k > 0 ==> Arrives(w, State(w.entry[d], ds, rs), t))
  {
    UnloopedRounds(w.sem, defs, f, d, ds, k);
    var rs' := TailRecurseDepth(w, defs, f, d, ds, rs, k);
  }

  /** The body `do tail-recurse loop` fails the guard: a round leaves the loop's three cells. */
  lemma {:induction false} TailRecurseUnderLoop(w: Image, defs: seq<Stmt>, d: nat, limit: int, index: int,
                                                ds: seq<int>, rs: seq<int>)
    requires d < |defs| && Loaded(w, defs) && defs[d] == Do(false, Atom(WTailRecurse), false)
    ensures !Unlooped(defs[d], false)
    ensures Round(w.sem, defs, 0, d, [index, limit] + ds, 1) == Some(Begun(ds, 1))
    ensures var a := w.entry[d];
            Arrives(w, State(a, [index, limit] + ds, rs), State(a, ds, [limit, index, a + 1] + rs))
  {
    assert |w.entry| == |defs|;
    var a, u, ds0 := w.entry[d], Unit(d, Bodies(defs, d)), [index, limit] + ds;
    CellsSplit(w.mem, a, Body(defs, d), [Tok(Semi)]);
    assert Body(defs, d) == Emit(defs[d], u, 0) == [Tok(DoT), Val(5)] + [Tok(Branch), Val(-3)] + [Tok(LoopT), Val(-3)];
    CellsSplit3(w.mem, a, [Tok(DoT), Val(5)], [Tok(Branch), Val(-3)], [Tok(LoopT), Val(-3)]);
    assert ds0[2..] == ds;
    assert Eval(w.sem, defs, 0, d, Atom(WTailRecurse), ds, [Loop(limit, index)]) == Done(ds, Restarted(1));
    assert [Loop(limit, index)] + [] == [Loop(limit, index)];
    assert EvalDo(w.sem, defs, 0, d, Atom(WTailRecurse), false, ds, Loop(limit, index), []) == Done(ds, Restarted(1));
    assert Eval(w.sem, defs, 0, d, defs[d], ds0, []) == Done(ds, Restarted(1));
    EnterDo(w, a, false, 5, ds0, rs);
    var t := State(a + 2, ds, [limit, index, a + 1] + rs);
    ReachOne(w, State(a, ds0, rs), t);
    Jump(w, a + 2, -3, ds, t.rs);
  }

  lemma {:induction false} ArrivesReaches(w: Image, s: State, s1: State, t: State)
    requires Arrives(w, s, s1) && Reaches(w, s1, t)
    requires t == s1 || Arrives(w, s1, t)
    ensures Reaches(w, s, t) && Arrives(w, s, t)
  {
    var u :| Reaches(w, s, u) && Step(w, u) == Some(s1);
    ReachStep(w, u, s1, t);
    ReachTrans(w, s, u, t);
    if t != s1 {
      ReachOne(w, u, s1);
      ReachTrans(w, s, u, s1);
      ArriveAfter(w, s, s1, t);
    }
  }

  lemma {:induction false} UntailProper(c: Stmt, n: nat)
    ensures Proper(Untail(c)) <==> Proper(c)
    ensures MacrosKnown(Untail(c), n) <==> MacrosKnown(c, n)
  {
    match c
    case Skip =>
    case Seq(a, b) => UntailProper(a, n); UntailProper(b, n);
    case Atom(w) =>
    case If(t) => UntailProper(t, n);
    case IfElse(t, e) => UntailProper(t, n); UntailProper(e, n);
    case Again(b) => UntailProper(b, n);
    case Until(b) => UntailProper(b, n);
    case While(t, b) => UntailProper(t, n); UntailProper(b, n);
    case Case(arms) => UntailProperArms(arms, n);
    case Do(_, b, _) => UntailProper(b, n);
  }

  lemma {:induction false} UntailProperArms(arms: Arms, n: nat)
    ensures ProperArms(UntailArms(arms)) <==> ProperArms(arms)
    ensures MacrosKnownArms(UntailArms(arms), n) <==> MacrosKnownArms(arms, n)
  {
    match arms
    case Default(d) => UntailProper(d, n);
    case Arm(p, b, rest) => UntailProper(p, n); UntailProper(b, n); UntailProperArms(rest, n);
  }

  /** The program compiled with `tail-recurse` and the one compiled with `recurse exit` in its
      place: both sensible, and where one ends with a stack the other halts with the same. */
  lemma {:induction false} TailRecurseComputesAsRecurse(sem: Sem, defs: seq<Stmt>, d: nat, ds: seq<int>, x: seq<int>,
                                                        f: nat)
    requires Sensible(defs) && d < |defs|
    requires Enter(sem, defs, f, d, ds) == Done(x, Fell) || Enter(sem, Untailed(defs), f, d, ds) == Done(x, Fell)
    ensures Sensible(Untailed(defs))
    ensures var w, v := Compiled(sem, defs), Compiled(sem, Untailed(defs));
            && d < |w.entry| && d < |v.entry|
            && Reaches(w, Start(w, d, ds), State(HALT, x, [])) && Reaches(v, Start(v, d, ds), State(HALT, x, []))
  {
    forall k | 0 <= k < |defs| ensures Proper(Untailed(defs)[k]) && MacrosKnown(Untailed(defs)[k], k) {
      UntailProper(defs[k], k);
    }
    TailIsRecurseExit(sem, defs, d, ds, x);
    var m: nat :| Enter(sem, defs, m, d, ds) == Done(x, Fell);
    var n: nat :| Enter(sem, Untailed(defs), n, d, ds) == Done(x, Fell);
    CompilerCorrect(sem, defs, d, ds, m);
    CompilerCorrect(sem, Untailed(defs), d, ds, n);
  }
}
