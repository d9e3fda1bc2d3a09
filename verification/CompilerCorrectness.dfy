/** The emitted cells mean what the source means: every structured evaluation is simulated by
    the inner interpreter, and evaluation that never ends keeps the interpreter running. */
module CompilerCorrectness {
  import opened ControlSyntax
  import opened ControlCompiler
  import opened OnePass
  import opened ThreadedCode
  import opened Options
  import opened Structured
  import opened Arithmetic

  /** Body cells of definition `k`, without the closing `(;)`. */
  function Body(defs: seq<Stmt>, k: nat): seq<Cell>
    requires k < |defs|
    decreases k, 2
  {
    Emit(defs[k], Unit(k, Bodies(defs, k)), 0)
  }

  /** The bodies of the first `k` definitions, which macro words of definition `k` copy. */
  function Bodies(defs: seq<Stmt>, k: nat): (bs: seq<seq<Cell>>)
    requires k <= |defs|
    ensures |bs| == k
    ensures forall d :: 0 <= d < k ==> bs[d] == Body(defs, d)
    decreases k, 1
  {
    if k == 0 then [] else Bodies(defs, k - 1) + [Body(defs, k - 1)]
  }

  ghost predicate CellsAt(mem: seq<Cell>, a: int, cells: seq<Cell>) {
    0 <= a && a + |cells| <= |mem| && mem[a..a + |cells|] == cells
  }

  /** Each definition's cells are in memory at its entry, closed by `(;)`. */
  ghost predicate Loaded(w: Image, defs: seq<Stmt>) {
    && |w.entry| == |defs|
    && forall d :: 0 <= d < |defs| ==> CellsAt(w.mem, w.entry[d], Body(defs, d) + [Tok(Semi)])
  }

  lemma {:induction false} CellsSplit(mem: seq<Cell>, a: int, x: seq<Cell>, y: seq<Cell>)
    requires CellsAt(mem, a, x + y)
    ensures CellsAt(mem, a, x) && CellsAt(mem, a + |x|, y)
  {
    assert mem[a..a + |x|] == mem[a..a + |x + y|][..|x|];
    assert mem[a + |x|..a + |x| + |y|] == mem[a..a + |x + y|][|x|..];
  }

  lemma {:induction false} CellsSplit3(mem: seq<Cell>, a: int, x: seq<Cell>, y: seq<Cell>, z: seq<Cell>)
    requires CellsAt(mem, a, x + y + z)
    ensures CellsAt(mem, a, x) && CellsAt(mem, a + |x|, y) && CellsAt(mem, a + |x| + |y|, z)
  {
    CellsSplit(mem, a, x + y, z);
    CellsSplit(mem, a, x, y);
  }

  lemma {:induction false} CellAt(mem: seq<Cell>, a: int, cells: seq<Cell>, i: nat)
    requires CellsAt(mem, a, cells) && i < |cells|
    ensures 0 <= a + i < |mem| && mem[a + i] == cells[i]
  {
    assert mem[a..a + |cells|][i] == mem[a + i];
  }

  /** The return stack holds a frame for each enclosing loop, innermost on top, above at
      least one return address. */
  ghost predicate Frames(mem: seq<Cell>, rs: seq<int>, loops: seq<Loop>)
    decreases |loops|
  {
    if loops == [] then rs != []
    else
      && |rs| >= 3 && rs[0] == loops[0].limit && rs[1] == loops[0].index
      && Target(mem, rs[2]).Some?
      && Frames(mem, rs[3..], loops[1..])
  }

  /** Only `tail-recurse` depends on where the statement stands in its body. */
  predicate Movable(c: Stmt) {
    match c
    case Skip => true
    case Seq(a, b) => Movable(a) && Movable(b)
    case Atom(w) => !w.WTailRecurse?
    case If(t) => Movable(t)
    case IfElse(t, e) => Movable(t) && Movable(e)
    case Again(b) => Movable(b)
    case Until(b) => Movable(b)
    case While(t, b) => Movable(t) && Movable(b)
    case Case(arms) => MovableArms(arms)
    case Do(_, b, _) => Movable(b)
  }

  predicate MovableArms(arms: Arms) {
    match arms
    case Default(d) => Movable(d)
    case Arm(p, b, rest) => Movable(p) && Movable(b) && MovableArms(rest)
  }

  lemma {:induction false} CopyableIsMovable(c: Stmt)
    requires Copyable(c)
    ensures Movable(c)
    decreases c
  {
    match c
    case Skip =>
    case Seq(a, b) => CopyableIsMovable(a); CopyableIsMovable(b);
    case Atom(w) =>
    case If(t) => CopyableIsMovable(t);
    case IfElse(t, e) => CopyableIsMovable(t); CopyableIsMovable(e);
    case Again(b) => CopyableIsMovable(b);
    case Until(b) => CopyableIsMovable(b);
    case While(t, b) => CopyableIsMovable(t); CopyableIsMovable(b);
    case Case(arms) => CopyableIsMovableArms(arms);
    case Do(_, b, _) => CopyableIsMovable(b);
  }

  lemma {:induction false} CopyableIsMovableArms(arms: Arms)
    requires CopyableArms(arms)
    ensures MovableArms(arms)
    decreases arms
  {
    match arms
    case Default(d) => CopyableIsMovable(d);
    case Arm(p, b, rest) => CopyableIsMovable(p); CopyableIsMovable(b); CopyableIsMovableArms(rest);
  }

  /** Where a statement's code sits: `cells` from address `a` on, `pos` cells into the body
      of `self`. */
  ghost predicate Placed(w: Image, defs: seq<Stmt>, self: nat, c: Stmt, a: int, pos: nat) {
    && self < |defs| && Loaded(w, defs)
    && CellsAt(w.mem, a, Emit(c, Unit(self, Bodies(defs, self)), pos))
    && (Movable(c) || a == w.entry[self] + pos)
  }

  ghost predicate PlacedArms(w: Image, defs: seq<Stmt>, self: nat, arms: Arms, a: int, pos: nat) {
    && self < |defs| && Loaded(w, defs)
    && CellsAt(w.mem, a, EmitArms(arms, Unit(self, Bodies(defs, self)), pos))
    && (MovableArms(arms) || a == w.entry[self] + pos)
  }

  function Size(defs: seq<Stmt>, self: nat, c: Stmt, pos: nat): nat
    requires self < |defs|
  {
    |Emit(c, Unit(self, Bodies(defs, self)), pos)|
  }

  /** `rs'` is `rs` with the cells of `n` loops instead of those of `m`. */
  predicate Deeper(rs': seq<int>, rs: seq<int>, n: nat, m: nat) {
    |rs'| >= 3 * n && |rs| >= 3 * m && rs'[3 * n..] == rs[3 * m..]
  }

  /** The machine comes back to the start of the body with `n` loops open, `m` of them when it
      was at `s` on return stack `rs`. */
  ghost predicate Restarts(w: Image, self: nat, s: State, rs: seq<int>, m: nat, ds: seq<int>, n: nat) {
    self < |w.entry| && exists rs' :: Deeper(rs', rs, n, m) && Arrives(w, s, State(w.entry[self], ds, rs'))
  }

  lemma {:induction false} RestartsAfter(w: Image, self: nat, s: State, t: State, rs: seq<int>, m: nat, ds: seq<int>,
                                         n: nat)
    requires Reaches(w, s, t) && Restarts(w, self, t, rs, m, ds, n)
    ensures Restarts(w, self, s, rs, m, ds, n)
  {
    var rs' :| Deeper(rs', rs, n, m) && Arrives(w, t, State(w.entry[self], ds, rs'));
    ArriveAfter(w, s, t, State(w.entry[self], ds, rs'));
  }

  lemma {:induction false} FramesDeep(mem: seq<Cell>, rs: seq<int>, loops: seq<Loop>)
    requires Frames(mem, rs, loops)
    ensures |rs| > 3 * |loops|
    decreases |loops|
  {
    if loops != [] { FramesDeep(mem, rs[3..], loops[1..]); }
  }

  /** What the machine does from `s` in the body of `self`, code ending at `end`, when the
      source evaluates to `r`. */
  ghost predicate Simulates(w: Image, self: nat, f: nat, s: State, end: int, loops: seq<Loop>, r: Res) {
    match r
    case Done(ds, how) =>
      if how == Fell then Reaches(w, s, State(end, ds, s.rs))
      else if how == Left then
        |s.rs| >= 3 && loops != [] && Target(w.mem, s.rs[2]).Some? &&
        Reaches(w, s, State(Target(w.mem, s.rs[2]).val, ds, s.rs[3..]))
      else if how == Returned then
        s.rs != [] && loops == [] && Reaches(w, s, State(s.rs[0], ds, s.rs[1..]))
      else Restarts(w, self, s, s.rs, |loops|, ds, how.deep)
    case Timeout => Runs(w, f, s)
    case Wrong => true
  }

  /** The machine first reaches `t` with the same return stack and goes on from there. */
  lemma {:induction false} SimulatesAfter(w: Image, self: nat, f: nat, s: State, t: State, end: int, loops: seq<Loop>,
                                          r: Res)
    requires Reaches(w, s, t) && t.rs == s.rs && Simulates(w, self, f, t, end, loops, r)
    ensures Simulates(w, self, f, s, end, loops, r)
  {
    match r
    case Done(ds, how) =>
      if how == Fell { ReachTrans(w, s, t, State(end, ds, s.rs)); }
      else if how == Left { ReachTrans(w, s, t, State(Target(w.mem, s.rs[2]).val, ds, s.rs[3..])); }
      else if how == Returned { ReachTrans(w, s, t, State(s.rs[0], ds, s.rs[1..])); }
      else { RestartsAfter(w, self, s, t, s.rs, |loops|, ds, how.deep); }
    case Timeout => RunsAfter(w, f, s, t);
    case Wrong =>
  }

  /** As above, one more machine step paying for one unit of fuel. */
  lemma {:induction false} SimulatesPaid(w: Image, self: nat, f: nat, s: State, t: State, t': State, end: int,
                                         loops: seq<Loop>, r: Res)
    requires Reaches(w, s, t) && Step(w, t) == Some(t') && t'.rs == s.rs && f > 0
    requires Simulates(w, self, f - 1, t', end, loops, r)
    ensures Simulates(w, self, f, s, end, loops, r)
  {
    if r.Timeout? {
      RunsAfterStep(w, f, s, t, t');
    } else {
      ReachOne(w, t, t');
      ReachTrans(w, s, t, t');
      SimulatesAfter(w, self, f - 1, s, t', end, loops, r);
    }
  }

  /** After the part ending at `mid` fell through, execution reaches `end` by `(branch)`. */
  lemma {:induction false} FallsOn(w: Image, self: nat, f: nat, s: State, mid: int, end: int, loops: seq<Loop>, r: Res)
    requires Simulates(w, self, f, s, mid, loops, r)
    requires r.Done? && r.how == Fell ==> Reaches(w, State(mid, r.ds, s.rs), State(end, r.ds, s.rs))
    ensures Simulates(w, self, f, s, end, loops, r)
  {
    if r.Done? && r.how == Fell {
      ReachTrans(w, s, State(mid, r.ds, s.rs), State(end, r.ds, s.rs));
    }
  }

  lemma {:induction false} Jump(w: Image, a: int, off: int, ds: seq<int>, rs: seq<int>)
    requires CellsAt(w.mem, a, [Tok(Branch), Val(off)])
    ensures Step(w, State(a, ds, rs)) == Some(State(a + 1 + off, ds, rs))
  {
    CellAt(w.mem, a, [Tok(Branch), Val(off)], 0);
    CellAt(w.mem, a, [Tok(Branch), Val(off)], 1);
  }

  lemma {:induction false} Conditional(w: Image, a: int, off: int, ds: seq<int>, rs: seq<int>)
    requires CellsAt(w.mem, a, [Tok(QBranch), Val(off)]) && ds != []
    ensures Step(w, State(a, ds, rs)) == Some(State(if ds[0] != 0 then a + 2 else a + 1 + off, ds[1..], rs))
  {
    CellAt(w.mem, a, [Tok(QBranch), Val(off)], 0);
    CellAt(w.mem, a, [Tok(QBranch), Val(off)], 1);
  }

  lemma {:induction false} EnterDo(w: Image, a: int, q: bool, off: int, ds: seq<int>, rs: seq<int>)
    requires CellsAt(w.mem, a, [Tok(if q then QDoT else DoT), Val(off)]) && |ds| >= 2
    ensures Step(w, State(a, ds, rs)) ==
            Some(if q && ds[0] == ds[1] then State(a + 1 + off, ds[2..], rs)
                 else State(a + 2, ds[2..], [ds[1], ds[0], a + 1] + rs))
    ensures w.mem[a + 1] == Val(off)
  {
    CellAt(w.mem, a, [Tok(if q then QDoT else DoT), Val(off)], 0);
    CellAt(w.mem, a, [Tok(if q then QDoT else DoT), Val(off)], 1);
  }

  lemma {:induction false} NextLoop(w: Image, a: int, p: bool, off: int, ds: seq<int>, limit: int, index: int,
                                    at: int, rs: seq<int>)
    requires CellsAt(w.mem, a, [Tok(if p then PlusLoopT else LoopT), Val(off)]) && !(p && ds == [])
    ensures var d := if p then ds[0] else 1;
            var rest := if p then ds[1..] else ds;
            var index' := Wrap(index + d);
            Step(w, State(a, ds, [limit, index, at] + rs)) ==
            Some(if Continues(d, limit, index') then State(a + 1 + off, rest, [limit, index', at] + rs)
                 else State(a + 2, rest, rs))
  {
    CellAt(w.mem, a, [Tok(if p then PlusLoopT else LoopT), Val(off)], 0);
    CellAt(w.mem, a, [Tok(if p then PlusLoopT else LoopT), Val(off)], 1);
    var rs1 := [limit, index, at] + rs;
    assert rs1[3..] == rs;
    var index' := Wrap(index + if p then ds[0] else 1);
    assert rs1[1 := index'] == [limit, index', at] + rs;
  }

  /** Main theorem: the simulation, for every statement at every place. */
  lemma {:induction false} Simulation(w: Image, defs: seq<Stmt>, f: nat, self: nat, c: Stmt, a: int, pos: nat,
                                      ds: seq<int>, rs: seq<int>, loops: seq<Loop>)
    requires Placed(w, defs, self, c, a, pos) && Frames(w.mem, rs, loops)
    ensures Simulates(w, self, f, State(a, ds, rs), a + Size(defs, self, c, pos), loops,
                      Eval(w.sem, defs, f, self, c, ds, loops))
    decreases f, self, c, 4
  {
    match c
    case Skip => ReachSelf(w, State(a, ds, rs));
    case Seq(x, y) => SimSeq(w, defs, f, self, x, y, a, pos, ds, rs, loops);
    case Atom(wd) => SimAtom(w, defs, f, self, wd, a, pos, ds, rs, loops);
    case If(t) => SimIf(w, defs, f, self, t, a, pos, ds, rs, loops);
    case IfElse(t, e) => SimIfElse(w, defs, f, self, t, e, a, pos, ds, rs, loops);
    case Again(b) => SimAgain(w, defs, f, self, b, a, pos, ds, rs, loops);
    case Until(b) => SimUntil(w, defs, f, self, b, a, pos, ds, rs, loops);
    case While(t, b) => SimWhile(w, defs, f, self, t, b, a, pos, ds, rs, loops);
    case Case(arms) => SimArms(w, defs, f, self, arms, a, pos, ds, rs, loops);
    case Do(q, b, p) => SimDo(w, defs, f, self, q, b, p, a, pos, ds, rs, loops);
  }

  lemma {:induction false} SimSeq(w: Image, defs: seq<Stmt>, f: nat, self: nat, x: Stmt, y: Stmt, a: int, pos: nat,
                                  ds: seq<int>, rs: seq<int>, loops: seq<Loop>)
    requires Placed(w, defs, self, Seq(x, y), a, pos) && Frames(w.mem, rs, loops)
    ensures Simulates(w, self, f, State(a, ds, rs), a + Size(defs, self, Seq(x, y), pos), loops,
                      Eval(w.sem, defs, f, self, Seq(x, y), ds, loops))
    decreases f, self, Seq(x, y), 3
  {
    hide Loaded, Frames, Step;
    var u := Unit(self, Bodies(defs, self));
    var n := |Emit(x, u, pos)|;
    CellsSplit(w.mem, a, Emit(x, u, pos), Emit(y, u, pos + n));
    Simulation(w, defs, f, self, x, a, pos, ds, rs, loops);
    var r := Eval(w.sem, defs, f, self, x, ds, loops);
    if r.Done? && r.how == Fell {
      Simulation(w, defs, f, self, y, a + n, pos + n, r.ds, rs, loops);
      SimulatesAfter(w, self, f, State(a, ds, rs), State(a + n, r.ds, rs), a + n + |Emit(y, u, pos + n)|, loops,
                     Eval(w.sem, defs, f, self, y, r.ds, loops));
    }
  }

  lemma {:induction false} SimAtom(w: Image, defs: seq<Stmt>, f: nat, self: nat, wd: Word, a: int, pos: nat,
                                   ds: seq<int>, rs: seq<int>, loops: seq<Loop>)
    requires Placed(w, defs, self, Atom(wd), a, pos) && Frames(w.mem, rs, loops)
    ensures Simulates(w, self, f, State(a, ds, rs), a + Size(defs, self, Atom(wd), pos), loops,
                      EvalAtom(w.sem, defs, f, self, wd, ds, loops))
    decreases f, self, Atom(wd), 3
  {
    hide Step, CellsAt;
    var s := State(a, ds, rs);
    var cells := EmitAtom(wd, Unit(self, Bodies(defs, self)), pos);
    match wd
    case WCall(d) => if d < |defs| { SimCall(w, defs, f, Atom(wd), d, a, ds, rs); }
    case WRecurse => SimCall(w, defs, f, Atom(wd), self, a, ds, rs);
    case WMacro(d) =>
      if d < self && Copyable(defs[d]) { SimMacro(w, defs, f, self, d, a, ds, rs, loops); }
    case WTailRecurse => SimTail(w, defs, f, self, a, pos, ds, rs, loops);
    case _ =>
      if cells != [] {
        SimSimple(w, defs, f, self, wd, a, pos, ds, rs, loops);
      }
  }

  /** `tail-recurse`: branch to the start of the body on the return stack as it is, loops and
      all. */
  lemma {:induction false} SimTail(w: Image, defs: seq<Stmt>, f: nat, self: nat, a: int, pos: nat,
                                   ds: seq<int>, rs: seq<int>, loops: seq<Loop>)
    requires Placed(w, defs, self, Atom(WTailRecurse), a, pos) && Frames(w.mem, rs, loops)
    ensures Simulates(w, self, f, State(a, ds, rs), a + 2, loops,
                      EvalAtom(w.sem, defs, f, self, WTailRecurse, ds, loops))
  {
    assert |w.entry| == |defs|;
    hide Loaded, Step;
    FramesDeep(w.mem, rs, loops);
    Jump(w, a, -(pos + 1), ds, rs);
    ReachSelf(w, State(a, ds, rs));
    assert Deeper(rs, rs, |loops|, |loops|);
  }

  /** Atoms that take one machine step. */
  lemma {:induction false} SimSimple(w: Image, defs: seq<Stmt>, f: nat, self: nat, wd: Word, a: int, pos: nat,
                  ds: seq<int>, rs: seq<int>, loops: seq<Loop>)
    requires Placed(w, defs, self, Atom(wd), a, pos) && Frames(w.mem, rs, loops)
    requires wd.WPlain? || wd.WLit? || wd.WI? || wd.WJ? || wd.WLeave? || wd.WExit?
    ensures Simulates(w, self, f, State(a, ds, rs), a + Size(defs, self, Atom(wd), pos), loops,
                      EvalAtom(w.sem, defs, f, self, wd, ds, loops))
  {
    var s := State(a, ds, rs);
    var cells := EmitAtom(wd, Unit(self, Bodies(defs, self)), pos);
    CellAt(w.mem, a, cells, 0);
    if wd.WLit? { CellAt(w.mem, a, cells, 1); }
    if |loops| >= 2 { assert rs[3..][1] == rs[4]; }
    var r := EvalAtom(w.sem, defs, f, self, wd, ds, loops);
    if r.Done? { ReachOne(w, s, Step(w, s).val); }
  }

  /** From the entry of a definition: either back at the caller, or still running. */
  lemma {:induction false} SimEnter(w: Image, defs: seq<Stmt>, f: nat, d: nat, ds: seq<int>, rs: seq<int>)
    requires d < |defs| && Loaded(w, defs) && rs != []
    ensures var r := Enter(w.sem, defs, f, d, ds);
            var s := State(w.entry[d], ds, rs);
            && (r.Done? ==> r.how == Fell && Reaches(w, s, State(rs[0], r.ds, rs[1..])))
            && (r.Timeout? ==> Runs(w, f, s))
    decreases f, d, defs[d], 5
  {
    var s := State(w.entry[d], ds, rs);
    CellsSplit(w.mem, w.entry[d], Body(defs, d), [Tok(Semi)]);
    Simulation(w, defs, f, d, defs[d], w.entry[d], 0, ds, rs, []);
    var r := Eval(w.sem, defs, f, d, defs[d], ds, []);
    if r.Done? && r.how == Fell {
      var t := State(w.entry[d] + |Body(defs, d)|, r.ds, rs);
      CellAt(w.mem, t.ip, [Tok(Semi)], 0);
      ReachOne(w, t, State(rs[0], r.ds, rs[1..]));
      ReachTrans(w, s, t, State(rs[0], r.ds, rs[1..]));
    } else if r.Done? && r.how == Restarted(0) && f > 0 {
      var rs' :| Deeper(rs', rs, 0, 0) && Arrives(w, s, State(w.entry[d], r.ds, rs'));
      assert rs' == rs'[0..] && rs[0..] == rs;
      SimAgainFrom(w, defs, f, d, r.ds, rs, s);
    }
  }

  /** After a round that ended with `tail-recurse`, the rounds that follow. */
  lemma {:induction false} SimAgainFrom(w: Image, defs: seq<Stmt>, f: nat, d: nat, ds: seq<int>, rs: seq<int>, s: State)
    requires d < |defs| && Loaded(w, defs) && rs != [] && f > 0
    requires Arrives(w, s, State(w.entry[d], ds, rs))
    ensures var r := Enter(w.sem, defs, f - 1, d, ds);
            && (r.Done? ==> r.how == Fell && Reaches(w, s, State(rs[0], r.ds, rs[1..])))
            && (r.Timeout? ==> Runs(w, f, s))
    decreases f, d, defs[d], 4
  {
    assert |w.entry| == |defs|;
    hide Loaded, Step, Eval;
    var t := State(w.entry[d], ds, rs);
    var u :| Reaches(w, s, u) && Step(w, u) == Some(t);
    SimEnter(w, defs, f - 1, d, ds, rs);
    var r := Enter(w.sem, defs, f - 1, d, ds);
    if r.Done? {
      ReachStep(w, u, t, State(rs[0], r.ds, rs[1..]));
      ReachTrans(w, s, u, State(rs[0], r.ds, rs[1..]));
    } else if r.Timeout? {
      RunsAfterStep(w, f, s, u, t);
    }
  }

  lemma {:induction false} SimCall(w: Image, defs: seq<Stmt>, f: nat, c: Stmt, d: nat, a: int, ds: seq<int>,
                                   rs: seq<int>)
    requires d < |defs| && Loaded(w, defs) && CellsAt(w.mem, a, [Tok(Colon(d))])
    ensures var r := if f == 0 then Timeout else Enter(w.sem, defs, f - 1, d, ds);
            var s := State(a, ds, rs);
            && (r.Done? ==> r.how == Fell && Reaches(w, s, State(a + 1, r.ds, rs)))
            && (r.Timeout? ==> Runs(w, f, s))
    decreases f, 0, c, 0
  {
    var s := State(a, ds, rs);
    CellAt(w.mem, a, [Tok(Colon(d))], 0);
    if f > 0 {
      var s' := State(w.entry[d], ds, [a + 1] + rs);
      assert Step(w, s) == Some(s');
      SimEnter(w, defs, f - 1, d, ds, [a + 1] + rs);
      assert ([a + 1] + rs)[1..] == rs;
      var r := Enter(w.sem, defs, f - 1, d, ds);
      if r.Done? {
        ReachStep(w, s, s', State(a + 1, r.ds, rs));
      } else if r.Timeout? {
        RunsStep(w, f, s, s');
      }
    }
  }

  /** A copied body runs in place, in whatever loops surround it. */
  lemma {:induction false} SimMacro(w: Image, defs: seq<Stmt>, f: nat, self: nat, d: nat, a: int,
                                    ds: seq<int>, rs: seq<int>, loops: seq<Loop>)
    requires d < self < |defs| && Loaded(w, defs) && CellsAt(w.mem, a, Body(defs, d)) && Copyable(defs[d])
    requires Frames(w.mem, rs, loops)
    ensures Simulates(w, self, f, State(a, ds, rs), a + |Body(defs, d)|, loops,
                      Eval(w.sem, defs, f, d, defs[d], ds, loops))
    decreases f, self, Atom(WMacro(d)), 0
  {
    CopyableIsMovable(defs[d]);
    Simulation(w, defs, f, d, defs[d], a, 0, ds, rs, loops);
    CopyableNeverReturns(w.sem, defs, f, d, defs[d], ds, loops);
  }

  /** Without `exit` and `tail-recurse` a body can only end by falling off its end. */
  lemma {:induction false} CopyableNeverReturns(sem: Sem, defs: seq<Stmt>, f: nat, self: nat, c: Stmt,
                                                ds: seq<int>, loops: seq<Loop>)
    requires Copyable(c)
    ensures var r := Eval(sem, defs, f, self, c, ds, loops); r.Done? ==> r.how == Fell || r.how == Left
    decreases f, self, c, 1
  {
    match c
    case Skip =>
    case Seq(x, y) =>
      CopyableNeverReturns(sem, defs, f, self, x, ds, loops);
      var r := Eval(sem, defs, f, self, x, ds, loops);
      if r.Done? && r.how == Fell { CopyableNeverReturns(sem, defs, f, self, y, r.ds, loops); }
    case Atom(wd) =>
      var r := EvalAtom(sem, defs, f, self, wd, ds, loops);
      if wd.WMacro? && wd.d < self && wd.d < |defs| && Copyable(defs[wd.d]) {
        CopyableNeverReturns(sem, defs, f, wd.d, defs[wd.d], ds, loops);
        assert r == Eval(sem, defs, f, wd.d, defs[wd.d], ds, loops);
      }
    case If(t) => if ds != [] { CopyableNeverReturns(sem, defs, f, self, t, ds[1..], loops); }
    case IfElse(t, e) =>
      if ds != [] { CopyableNeverReturns(sem, defs, f, self, if ds[0] != 0 then t else e, ds[1..], loops); }
    case Again(b) =>
      CopyableNeverReturns(sem, defs, f, self, b, ds, loops);
      var r := Eval(sem, defs, f, self, b, ds, loops);
      if r.Done? && f > 0 { CopyableNeverReturns(sem, defs, f - 1, self, c, r.ds, loops); }
    case Until(b) =>
      CopyableNeverReturns(sem, defs, f, self, b, ds, loops);
      var r := Eval(sem, defs, f, self, b, ds, loops);
      if r.Done? && r.ds != [] && f > 0 { CopyableNeverReturns(sem, defs, f - 1, self, c, r.ds[1..], loops); }
    case While(t, b) =>
      CopyableNeverReturns(sem, defs, f, self, t, ds, loops);
      var r := Eval(sem, defs, f, self, t, ds, loops);
      if r.Done? && r.ds != [] {
        CopyableNeverReturns(sem, defs, f, self, b, r.ds[1..], loops);
        var r2 := Eval(sem, defs, f, self, b, r.ds[1..], loops);
        if r2.Done? && f > 0 { CopyableNeverReturns(sem, defs, f - 1, self, c, r2.ds, loops); }
      }
    case Case(arms) => ArmsNeverReturn(sem, defs, f, self, arms, ds, loops);
    case Do(_, b, p) =>
      if |ds| >= 2 { DoNeverReturns(sem, defs, f, self, b, p, ds[2..], Loop(ds[1], ds[0]), loops); }
  }

  lemma {:induction false} ArmsNeverReturn(sem: Sem, defs: seq<Stmt>, f: nat, self: nat, arms: Arms,
                                           ds: seq<int>, loops: seq<Loop>)
    requires CopyableArms(arms)
    ensures var r := EvalArms(sem, defs, f, self, arms, ds, loops); r.Done? ==> r.how == Fell || r.how == Left
    decreases f, self, arms, 1
  {
    match arms
    case Default(d) => CopyableNeverReturns(sem, defs, f, self, d, ds, loops);
    case Arm(p, b, rest) =>
      CopyableNeverReturns(sem, defs, f, self, p, ds, loops);
      var r := Eval(sem, defs, f, self, p, ds, loops);
      if r.Done? && |r.ds| >= 2 {
        CopyableNeverReturns(sem, defs, f, self, b, r.ds[2..], loops);
        ArmsNeverReturn(sem, defs, f, self, rest, r.ds[1..], loops);
      }
  }

  lemma {:induction false} DoNeverReturns(sem: Sem, defs: seq<Stmt>, f: nat, self: nat, b: Stmt, plus: bool,
                                          ds: seq<int>, l: Loop, loops: seq<Loop>)
    requires Copyable(b)
    ensures var r := EvalDo(sem, defs, f, self, b, plus, ds, l, loops); r.Done? ==> r.how == Fell
    decreases f, self, b, 2
  {
    CopyableNeverReturns(sem, defs, f, self, b, ds, [l] + loops);
    var t := AfterTurn(Eval(sem, defs, f, self, b, ds, [l] + loops), plus, l);
    if t.Next? && f > 0 { DoNeverReturns(sem, defs, f - 1, self, b, plus, t.ds, t.loop, loops); }
  }

  lemma {:induction false} SimIf(w: Image, defs: seq<Stmt>, f: nat, self: nat, t: Stmt, a: int, pos: nat,
                                 ds: seq<int>, rs: seq<int>, loops: seq<Loop>)
    requires Placed(w, defs, self, If(t), a, pos) && Frames(w.mem, rs, loops)
    ensures Simulates(w, self, f, State(a, ds, rs), a + Size(defs, self, If(t), pos), loops,
                      Eval(w.sem, defs, f, self, If(t), ds, loops))
    decreases f, self, If(t), 3
  {
    hide Loaded, Frames, Step;
    var s := State(a, ds, rs);
    var x := Emit(t, Unit(self, Bodies(defs, self)), pos + 2);
    CellsSplit(w.mem, a, [Tok(QBranch), Val(|x| + 1)], x);
    if ds != [] {
      Conditional(w, a, |x| + 1, ds, rs);
      var s' := Step(w, s).val;
      ReachOne(w, s, s');
      if ds[0] != 0 {
        Simulation(w, defs, f, self, t, a + 2, pos + 2, ds[1..], rs, loops);
        SimulatesAfter(w, self, f, s, s', a + 2 + |x|, loops, Eval(w.sem, defs, f, self, t, ds[1..], loops));
      }
    }
  }

  lemma {:induction false} EvalIfElse(sem: Sem, defs: seq<Stmt>, f: nat, self: nat, t: Stmt, e: Stmt, ds: seq<int>,
                                      loops: seq<Loop>)
    ensures Eval(sem, defs, f, self, IfElse(t, e), ds, loops) ==
            if ds == [] then Wrong else Eval(sem, defs, f, self, if ds[0] != 0 then t else e, ds[1..], loops)
  {}

  lemma {:induction false} SimIfElse(w: Image, defs: seq<Stmt>, f: nat, self: nat, t: Stmt, e: Stmt, a: int, pos: nat,
                                     ds: seq<int>, rs: seq<int>, loops: seq<Loop>)
    requires self < |defs| && Placed(w, defs, self, IfElse(t, e), a, pos) && Frames(w.mem, rs, loops)
    ensures Simulates(w, self, f, State(a, ds, rs), a + Size(defs, self, IfElse(t, e), pos), loops,
                      Eval(w.sem, defs, f, self, IfElse(t, e), ds, loops))
    decreases f, self, IfElse(t, e), 3
  {
    hide *;
    EvalIfElse(w.sem, defs, f, self, t, e, ds, loops);
    IfElseParts(w, defs, self, t, e, a, pos);
    var s := State(a, ds, rs);
    var m := Size(defs, self, t, pos + 2);
    if ds == [] {
      WrongSimulates(w, self, f, s, a + Size(defs, self, IfElse(t, e), pos), loops);
    } else if ds[0] != 0 {
      Conditional(w, a, m + 3, ds, rs);
      ReachOne(w, s, State(a + 2, ds[1..], rs));
      Simulation(w, defs, f, self, t, a + 2, pos + 2, ds[1..], rs, loops);
      ThenJump(w, self, f, s, State(a + 2, ds[1..], rs), a + 2 + m, Size(defs, self, e, pos + m + 4) + 1, loops,
               Eval(w.sem, defs, f, self, t, ds[1..], loops));
    } else {
      SimElse(w, defs, f, self, t, e, a, pos, ds, rs, loops, m);
    }
  }

  /** The second branch of a conditional whose first one has `m` cells. */
  lemma {:induction false} SimElse(w: Image, defs: seq<Stmt>, f: nat, self: nat, t: Stmt, e: Stmt, a: int, pos: nat,
                                   ds: seq<int>, rs: seq<int>, loops: seq<Loop>, m: nat)
    requires self < |defs| && Placed(w, defs, self, e, a + m + 4, pos + m + 4) && Frames(w.mem, rs, loops)
    requires CellsAt(w.mem, a, [Tok(QBranch), Val(m + 3)]) && ds != [] && ds[0] == 0
    ensures Simulates(w, self, f, State(a, ds, rs), a + m + 4 + Size(defs, self, e, pos + m + 4), loops,
                      Eval(w.sem, defs, f, self, e, ds[1..], loops))
    decreases f, self, IfElse(t, e), 2
  {
    hide *;
    var s, s' := State(a, ds, rs), State(a + m + 4, ds[1..], rs);
    Conditional(w, a, m + 3, ds, rs);
    ReachOne(w, s, s');
    Simulation(w, defs, f, self, e, a + m + 4, pos + m + 4, ds[1..], rs, loops);
    SimulatesAfter(w, self, f, s, s', a + m + 4 + Size(defs, self, e, pos + m + 4), loops,
                   Eval(w.sem, defs, f, self, e, ds[1..], loops));
  }

  /** Where the pieces of a two-sided conditional are. */
  lemma {:induction false} IfElseParts(w: Image, defs: seq<Stmt>, self: nat, t: Stmt, e: Stmt, a: int, pos: nat)
    requires Placed(w, defs, self, IfElse(t, e), a, pos)
    ensures var m := Size(defs, self, t, pos + 2); var n := Size(defs, self, e, pos + m + 4);
            && CellsAt(w.mem, a, [Tok(QBranch), Val(m + 3)]) && Placed(w, defs, self, t, a + 2, pos + 2)
            && CellsAt(w.mem, a + 2 + m, [Tok(Branch), Val(n + 1)]) && Placed(w, defs, self, e, a + m + 4, pos + m + 4)
            && Size(defs, self, IfElse(t, e), pos) == m + n + 4
  {
    hide Loaded, CellsAt;
    var u := Unit(self, Bodies(defs, self));
    var x := Emit(t, u, pos + 2);
    var y := Emit(e, u, pos + |x| + 4);
    CellsSplit(w.mem, a, [Tok(QBranch), Val(|x| + 3)] + x + [Tok(Branch), Val(|y| + 1)], y);
    CellsSplit3(w.mem, a, [Tok(QBranch), Val(|x| + 3)], x, [Tok(Branch), Val(|y| + 1)]);
  }

  /** A part that was entered at `t` and ends with a `(branch)` over what follows. */
  lemma {:induction false} ThenJump(w: Image, self: nat, f: nat, s: State, t: State, mid: int, off: int,
                                    loops: seq<Loop>, r: Res)
    requires Reaches(w, s, t) && t.rs == s.rs && CellsAt(w.mem, mid, [Tok(Branch), Val(off)])
    requires Simulates(w, self, f, t, mid, loops, r)
    ensures Simulates(w, self, f, s, mid + 1 + off, loops, r)
  {
    hide Step, Simulates, CellsAt;
    if r.Done? {
      Jump(w, mid, off, r.ds, s.rs);
      ReachOne(w, State(mid, r.ds, s.rs), State(mid + 1 + off, r.ds, s.rs));
    }
    FallsOn(w, self, f, t, mid, mid + 1 + off, loops, r);
    SimulatesAfter(w, self, f, s, t, mid + 1 + off, loops, r);
  }

  lemma {:induction false} WrongSimulates(w: Image, self: nat, f: nat, s: State, end: int, loops: seq<Loop>)
    ensures Simulates(w, self, f, s, end, loops, Wrong)
  {}

  lemma {:induction false} SimAgain(w: Image, defs: seq<Stmt>, f: nat, self: nat, b: Stmt, a: int, pos: nat,
                                    ds: seq<int>, rs: seq<int>, loops: seq<Loop>)
    requires Placed(w, defs, self, Again(b), a, pos) && Frames(w.mem, rs, loops)
    ensures Simulates(w, self, f, State(a, ds, rs), a + Size(defs, self, Again(b), pos), loops,
                      Eval(w.sem, defs, f, self, Again(b), ds, loops))
    decreases f, self, Again(b), 3
  {
    hide Loaded, Frames, Step, CellsAt, Simulates, Reaches, Runs;
    var s := State(a, ds, rs);
    var x := Emit(b, Unit(self, Bodies(defs, self)), pos);
    CellsSplit(w.mem, a, x, [Tok(Branch), Val(-(|x| + 1))]);
    Simulation(w, defs, f, self, b, a, pos, ds, rs, loops);
    var r := Eval(w.sem, defs, f, self, b, ds, loops);
    if !(r.Done? && r.how == Fell) {
      NotFell(w, self, f, s, a + |x|, a + |x| + 2, loops, r);
    } else if f == 0 {
      FellRuns(w, self, s, a + |x| + 2, loops);
    } else {
      ItFell(w, self, f, s, a + |x|, loops, r);
      Jump(w, a + |x|, -(|x| + 1), r.ds, rs);
      Simulation(w, defs, f - 1, self, Again(b), a, pos, r.ds, rs, loops);
      SimulatesPaid(w, self, f, s, State(a + |x|, r.ds, rs), State(a, r.ds, rs), a + |x| + 2, loops,
                    Eval(w.sem, defs, f - 1, self, Again(b), r.ds, loops));
    }
  }

  lemma {:induction false} SimUntil(w: Image, defs: seq<Stmt>, f: nat, self: nat, b: Stmt, a: int, pos: nat,
                                    ds: seq<int>, rs: seq<int>, loops: seq<Loop>)
    requires Placed(w, defs, self, Until(b), a, pos) && Frames(w.mem, rs, loops)
    ensures Simulates(w, self, f, State(a, ds, rs), a + Size(defs, self, Until(b), pos), loops,
                      Eval(w.sem, defs, f, self, Until(b), ds, loops))
    decreases f, self, Until(b), 3
  {
    hide Loaded, Frames, Step, CellsAt, Simulates, Reaches, Runs;
    var s := State(a, ds, rs);
    var x := Emit(b, Unit(self, Bodies(defs, self)), pos);
    CellsSplit(w.mem, a, x, [Tok(QBranch), Val(-(|x| + 1))]);
    Simulation(w, defs, f, self, b, a, pos, ds, rs, loops);
    var mid, end := a + |x|, a + |x| + 2;
    var r := Eval(w.sem, defs, f, self, b, ds, loops);
    if r.Done? && r.how == Fell {
      if r.ds == [] {
        WrongSimulates(w, self, f, s, end, loops);
      } else {
        Conditional(w, mid, -(|x| + 1), r.ds, rs);
        ItFell(w, self, f, s, mid, loops, r);
        var t := State(mid, r.ds, rs);
        if r.ds[0] != 0 {
          ReachOne(w, t, State(end, r.ds[1..], rs));
          ReachTrans(w, s, t, State(end, r.ds[1..], rs));
          FellSimulates(w, self, f, s, end, loops, r.ds[1..]);
        } else if f > 0 {
          Simulation(w, defs, f - 1, self, Until(b), a, pos, r.ds[1..], rs, loops);
          SimulatesPaid(w, self, f, s, t, State(a, r.ds[1..], rs), end, loops,
                        Eval(w.sem, defs, f - 1, self, Until(b), r.ds[1..], loops));
        } else {
          FellRuns(w, self, s, end, loops);
        }
      }
    } else {
      FallsOn(w, self, f, s, mid, end, loops, r);
    }
  }

  /** Without fuel nothing is claimed but that the machine is still running. */
  lemma {:induction false} FellRuns(w: Image, self: nat, s: State, end: int, loops: seq<Loop>)
    ensures Simulates(w, self, 0, s, end, loops, Timeout)
  {
    assert Runs(w, 0, s);
  }

  lemma {:induction false} SimWhile(w: Image, defs: seq<Stmt>, f: nat, self: nat, t: Stmt, b: Stmt, a: int, pos: nat,
                                    ds: seq<int>, rs: seq<int>, loops: seq<Loop>)
    requires Placed(w, defs, self, While(t, b), a, pos) && Frames(w.mem, rs, loops)
    ensures Simulates(w, self, f, State(a, ds, rs), a + Size(defs, self, While(t, b), pos), loops,
                      Eval(w.sem, defs, f, self, While(t, b), ds, loops))
    decreases f, self, While(t, b), 3
  {
    hide Loaded, Frames, Step, CellsAt, Simulates, Reaches, Runs;
    var s := State(a, ds, rs);
    var u := Unit(self, Bodies(defs, self));
    var x := Emit(t, u, pos);
    var y := Emit(b, u, pos + |x| + 2);
    var exit, back := [Tok(QBranch), Val(|y| + 3)], [Tok(Branch), Val(-(|x| + |y| + 3))];
    CellsSplit(w.mem, a, x + exit + y, back);
    CellsSplit3(w.mem, a, x, exit, y);
    var mid, end := a + |x|, a + |x| + |y| + 4;
    Simulation(w, defs, f, self, t, a, pos, ds, rs, loops);
    var r := Eval(w.sem, defs, f, self, t, ds, loops);
    if r.Done? && r.how == Fell {
      if r.ds == [] {
        WrongSimulates(w, self, f, s, end, loops);
      } else {
        ItFell(w, self, f, s, mid, loops, r);
        var s1 := State(mid, r.ds, rs);
        Conditional(w, mid, |y| + 3, r.ds, rs);
        var s2 := Step(w, s1).val;
        ReachOne(w, s1, s2);
        ReachTrans(w, s, s1, s2);
        if r.ds[0] != 0 {
          hide Emit;
          Simulation(w, defs, f, self, b, mid + 2, pos + |x| + 2, r.ds[1..], rs, loops);
          SimRepeat(w, defs, f, self, t, b, a, pos, s, s2, loops, |x|, |y|);
        } else {
          FellSimulates(w, self, f, s, end, loops, r.ds[1..]);
        }
      }
    } else {
      FallsOn(w, self, f, s, mid, end, loops, r);
    }
  }

  /** After the body of a `while` loop: back to its start, or out the way the body left. */
  lemma {:induction false} SimRepeat(w: Image, defs: seq<Stmt>, f: nat, self: nat, t: Stmt, b: Stmt, a: int, pos: nat,
                                     s: State, s2: State, loops: seq<Loop>, m: nat, n: nat)
    requires Placed(w, defs, self, While(t, b), a, pos) && Frames(w.mem, s.rs, loops)
    requires Reaches(w, s, s2) && s2.rs == s.rs && Size(defs, self, While(t, b), pos) == m + n + 4
    requires CellsAt(w.mem, a + m + 2 + n, [Tok(Branch), Val(-(m + n + 3))])
    requires Simulates(w, self, f, s2, a + m + 2 + n, loops, Eval(w.sem, defs, f, self, b, s2.ds, loops))
    ensures var r2 := Eval(w.sem, defs, f, self, b, s2.ds, loops);
            Simulates(w, self, f, s, a + m + n + 4, loops,
                      if !(r2.Done? && r2.how == Fell) then r2
                      else if f == 0 then Timeout
                      else Eval(w.sem, defs, f - 1, self, While(t, b), r2.ds, loops))
    decreases f, self, While(t, b), 2
  {
    hide Loaded, Frames, Step, CellsAt, Emit, Eval;
    var r2 := Eval(w.sem, defs, f, self, b, s2.ds, loops);
    var mid, end := a + m + 2 + n, a + m + n + 4;
    if r2.Done? && r2.how == Fell {
      ReachTrans(w, s, s2, State(mid, r2.ds, s.rs));
      if f > 0 {
        Jump(w, mid, -(m + n + 3), r2.ds, s.rs);
        Simulation(w, defs, f - 1, self, While(t, b), a, pos, r2.ds, s.rs, loops);
        SimulatesPaid(w, self, f, s, State(mid, r2.ds, s.rs), State(a, r2.ds, s.rs), end, loops,
                      Eval(w.sem, defs, f - 1, self, While(t, b), r2.ds, loops));
      }
    } else {
      FallsOn(w, self, f, s2, mid, end, loops, r2);
      SimulatesAfter(w, self, f, s, s2, end, loops, r2);
    }
  }

  /** A part that falls through, read off its simulation. */
  lemma {:induction false} ItFell(w: Image, self: nat, f: nat, s: State, end: int, loops: seq<Loop>, r: Res)
    requires Simulates(w, self, f, s, end, loops, r) && r.Done? && r.how == Fell
    ensures Reaches(w, s, State(end, r.ds, s.rs))
  {}

  /** A part that does not fall through ends the whole the same way, wherever that ends. */
  lemma {:induction false} NotFell(w: Image, self: nat, f: nat, s: State, mid: int, end: int, loops: seq<Loop>, r: Res)
    requires Simulates(w, self, f, s, mid, loops, r) && !(r.Done? && r.how == Fell)
    ensures Simulates(w, self, f, s, end, loops, r)
  {}

  lemma {:induction false} FellSimulates(w: Image, self: nat, f: nat, s: State, end: int, loops: seq<Loop>,
                                         ds: seq<int>)
    requires Reaches(w, s, State(end, ds, s.rs))
    ensures Simulates(w, self, f, s, end, loops, Done(ds, Fell))
  {}

  lemma {:induction false} DefaultParts(w: Image, defs: seq<Stmt>, self: nat, d: Stmt, a: int, pos: nat)
    requires PlacedArms(w, defs, self, Default(d), a, pos)
    ensures Placed(w, defs, self, d, a, pos)
    ensures CellsAt(w.mem, a + Size(defs, self, d, pos), [Tok(Drop)])
    ensures |EmitArms(Default(d), Unit(self, Bodies(defs, self)), pos)| == Size(defs, self, d, pos) + 1
  {
    hide Loaded;
    CellsSplit(w.mem, a, Emit(d, Unit(self, Bodies(defs, self)), pos), [Tok(Drop)]);
  }

  lemma {:induction false} EvalDefault(sem: Sem, defs: seq<Stmt>, f: nat, self: nat, d: Stmt, ds: seq<int>,
                                       loops: seq<Loop>)
    ensures EvalArms(sem, defs, f, self, Default(d), ds, loops) ==
            (var r := Eval(sem, defs, f, self, d, ds, loops);
             if !(r.Done? && r.how == Fell) then r
             else if r.ds == [] then Wrong
             else Done(r.ds[1..], Fell))
  {}

  lemma {:induction false} DropStep(w: Image, a: int, ds: seq<int>, rs: seq<int>)
    requires CellsAt(w.mem, a, [Tok(Drop)]) && ds != []
    ensures Step(w, State(a, ds, rs)) == Some(State(a + 1, ds[1..], rs))
  {
    CellAt(w.mem, a, [Tok(Drop)], 0);
  }

  lemma {:induction false} SimArms(w: Image, defs: seq<Stmt>, f: nat, self: nat, arms: Arms, a: int, pos: nat,
                                   ds: seq<int>, rs: seq<int>, loops: seq<Loop>)
    requires self < |defs| && PlacedArms(w, defs, self, arms, a, pos) && Frames(w.mem, rs, loops)
    ensures Simulates(w, self, f, State(a, ds, rs), a + |EmitArms(arms, Unit(self, Bodies(defs, self)), pos)|, loops,
                      EvalArms(w.sem, defs, f, self, arms, ds, loops))
    decreases f, self, arms, 3
  {
    hide *;
    match arms
    case Default(d) =>
      var s := State(a, ds, rs);
      DefaultParts(w, defs, self, d, a, pos);
      EvalDefault(w.sem, defs, f, self, d, ds, loops);
      var n := Size(defs, self, d, pos);
      Simulation(w, defs, f, self, d, a, pos, ds, rs, loops);
      var r := Eval(w.sem, defs, f, self, d, ds, loops);
      if !(r.Done? && r.how == Fell) {
        NotFell(w, self, f, s, a + n, a + n + 1, loops, r);
      } else if r.ds == [] {
        WrongSimulates(w, self, f, s, a + n + 1, loops);
      } else {
        ItFell(w, self, f, s, a + n, loops, r);
        DropStep(w, a + n, r.ds, rs);
        ReachOne(w, State(a + n, r.ds, rs), State(a + n + 1, r.ds[1..], rs));
        ReachTrans(w, s, State(a + n, r.ds, rs), State(a + n + 1, r.ds[1..], rs));
        FellSimulates(w, self, f, s, a + n + 1, loops, r.ds[1..]);
      }
    case Arm(p, b, rest) => SimArm(w, defs, f, self, p, b, rest, a, pos, ds, rs, loops);
  }

  /** Where the pieces of an arm are. */
  lemma {:induction false} ArmParts(w: Image, defs: seq<Stmt>, self: nat, p: Stmt, b: Stmt, rest: Arms, a: int,
                                    pos: nat)
    requires PlacedArms(w, defs, self, Arm(p, b, rest), a, pos)
    ensures var n := Size(defs, self, p, pos);
            var m := Size(defs, self, b, pos + n + 5);
            var k := |EmitArms(rest, Unit(self, Bodies(defs, self)), pos + n + m + 7)|;
            && Placed(w, defs, self, p, a, pos)
            && CellsAt(w.mem, a + n, [Tok(Over), Tok(Equals), Tok(QBranch), Val(m + 4), Tok(Drop)])
            && Placed(w, defs, self, b, a + n + 5, pos + n + 5)
            && CellsAt(w.mem, a + n + 5 + m, [Tok(Branch), Val(k + 1)])
            && PlacedArms(w, defs, self, rest, a + n + m + 7, pos + n + m + 7)
            && |EmitArms(Arm(p, b, rest), Unit(self, Bodies(defs, self)), pos)| == n + m + k + 7
  {
    hide Loaded, CellsAt;
    var u := Unit(self, Bodies(defs, self));
    var x := Emit(p, u, pos);
    var y := Emit(b, u, pos + |x| + 5);
    var z := EmitArms(rest, u, pos + |x| + |y| + 7);
    var test, jump := [Tok(Over), Tok(Equals), Tok(QBranch), Val(|y| + 4), Tok(Drop)], [Tok(Branch), Val(|z| + 1)];
    FiveParts(w.mem, a, x, test, y, jump, z);
  }

  lemma {:induction false} FiveParts(mem: seq<Cell>, a: int, x: seq<Cell>, test: seq<Cell>, y: seq<Cell>,
                                     jump: seq<Cell>, z: seq<Cell>)
    requires CellsAt(mem, a, x + test + y + jump + z)
    ensures CellsAt(mem, a, x) && CellsAt(mem, a + |x|, test) && CellsAt(mem, a + |x| + |test|, y)
    ensures CellsAt(mem, a + |x| + |test| + |y|, jump) && CellsAt(mem, a + |x| + |test| + |y| + |jump|, z)
  {
    hide CellsAt;
    CellsSplit(mem, a, x + test + y + jump, z);
    CellsSplit(mem, a, x + test + y, jump);
    CellsSplit3(mem, a, x, test, y);
  }

  lemma {:induction false} EvalArm(sem: Sem, defs: seq<Stmt>, f: nat, self: nat, p: Stmt, b: Stmt, rest: Arms,
                                   ds: seq<int>, loops: seq<Loop>)
    ensures EvalArms(sem, defs, f, self, Arm(p, b, rest), ds, loops) ==
            (var r := Eval(sem, defs, f, self, p, ds, loops);
             if !(r.Done? && r.how == Fell) then r
             else if |r.ds| < 2 then Wrong
             else if r.ds[1] == r.ds[0] then Eval(sem, defs, f, self, b, r.ds[2..], loops)
             else EvalArms(sem, defs, f, self, rest, r.ds[1..], loops))
  {}

  lemma {:induction false} SimArm(w: Image, defs: seq<Stmt>, f: nat, self: nat, p: Stmt, b: Stmt, rest: Arms, a: int,
                                  pos: nat, ds: seq<int>, rs: seq<int>, loops: seq<Loop>)
    requires self < |defs| && PlacedArms(w, defs, self, Arm(p, b, rest), a, pos) && Frames(w.mem, rs, loops)
    ensures Simulates(w, self, f, State(a, ds, rs),
                      a + |EmitArms(Arm(p, b, rest), Unit(self, Bodies(defs, self)), pos)|, loops,
                      EvalArms(w.sem, defs, f, self, Arm(p, b, rest), ds, loops))
    decreases f, self, Arm(p, b, rest), 2
  {
    hide *;
    ArmParts(w, defs, self, p, b, rest, a, pos);
    EvalArm(w.sem, defs, f, self, p, b, rest, ds, loops);
    var s := State(a, ds, rs);
    var n := Size(defs, self, p, pos);
    var m := Size(defs, self, b, pos + n + 5);
    var k := |EmitArms(rest, Unit(self, Bodies(defs, self)), pos + n + m + 7)|;
    var end := a + n + m + k + 7;
    Simulation(w, defs, f, self, p, a, pos, ds, rs, loops);
    var r := Eval(w.sem, defs, f, self, p, ds, loops);
    if !(r.Done? && r.how == Fell) {
      NotFell(w, self, f, s, a + n, end, loops, r);
    } else if |r.ds| < 2 {
      WrongSimulates(w, self, f, s, end, loops);
    } else {
      ItFell(w, self, f, s, a + n, loops, r);
      SimSelect(w, defs, f, self, p, b, rest, a, pos, n, m, s, r.ds, loops);
    }
  }

  /** From the test of an arm on. */
  lemma {:induction false} SimSelect(w: Image, defs: seq<Stmt>, f: nat, self: nat, p: Stmt, b: Stmt, rest: Arms, a: int,
                                     pos: nat, n: nat, m: nat, s: State, ds: seq<int>, loops: seq<Loop>)
    requires self < |defs| && PlacedArms(w, defs, self, Arm(p, b, rest), a, pos) && Frames(w.mem, s.rs, loops)
    requires n == Size(defs, self, p, pos) && m == Size(defs, self, b, pos + n + 5)
    requires Reaches(w, s, State(a + n, ds, s.rs)) && |ds| >= 2
    ensures Simulates(w, self, f, s, a + |EmitArms(Arm(p, b, rest), Unit(self, Bodies(defs, self)), pos)|, loops,
                      if ds[1] == ds[0] then Eval(w.sem, defs, f, self, b, ds[2..], loops)
                      else EvalArms(w.sem, defs, f, self, rest, ds[1..], loops))
    decreases f, self, Arm(p, b, rest), 1
  {
    hide *;
    ArmParts(w, defs, self, p, b, rest, a, pos);
    var k := |EmitArms(rest, Unit(self, Bodies(defs, self)), pos + n + m + 7)|;
    SimTest(w, a + n, m, ds, s.rs);
    var t := if ds[1] == ds[0] then State(a + n + 5, ds[2..], s.rs) else State(a + n + m + 7, ds[1..], s.rs);
    ReachTrans(w, s, State(a + n, ds, s.rs), t);
    if ds[1] == ds[0] {
      Simulation(w, defs, f, self, b, a + n + 5, pos + n + 5, ds[2..], s.rs, loops);
      ThenJump(w, self, f, s, t, a + n + 5 + m, k + 1, loops, Eval(w.sem, defs, f, self, b, ds[2..], loops));
    } else {
      SimArms(w, defs, f, self, rest, a + n + m + 7, pos + n + m + 7, ds[1..], s.rs, loops);
      SimulatesAfter(w, self, f, s, t, a + n + m + k + 7, loops, EvalArms(w.sem, defs, f, self, rest, ds[1..], loops));
    }
  }

  /** `over = (?branch) drop`: select the arm on a match, skip it otherwise. */
  lemma {:induction false} SimTest(w: Image, a: int, n: nat, ds: seq<int>, rs: seq<int>)
    requires CellsAt(w.mem, a, [Tok(Over), Tok(Equals), Tok(QBranch), Val(n + 4), Tok(Drop)]) && |ds| >= 2
    ensures Reaches(w, State(a, ds, rs),
                    if ds[1] == ds[0] then State(a + 5, ds[2..], rs) else State(a + 7 + n, ds[1..], rs))
  {
    var test := [Tok(Over), Tok(Equals), Tok(QBranch), Val(n + 4), Tok(Drop)];
    forall i | 0 <= i < 5 ensures 0 <= a + i < |w.mem| && w.mem[a + i] == test[i] {
      CellAt(w.mem, a, test, i);
    }
    assert w.mem[a + 0] == Tok(Over) && w.mem[a + 1] == Tok(Equals) && w.mem[a + 2] == Tok(QBranch);
    assert w.mem[a + 3] == Val(n + 4) && w.mem[a + 4] == Tok(Drop);
    var s0 := State(a, ds, rs);
    var s1 := State(a + 1, [ds[1]] + ds, rs);
    var s2 := State(a + 2, [if ds[1] == ds[0] then -1 else 0] + ds[1..], rs);
    assert s1.ds[2..] == ds[1..];
    assert Step(w, s0) == Some(s1) && Step(w, s1) == Some(s2);
    assert s2.ds[1..] == ds[1..];
    if ds[1] == ds[0] {
      var s3, s4 := State(a + 4, ds[1..], rs), State(a + 5, ds[2..], rs);
      assert Step(w, s2) == Some(s3) && Step(w, s3) == Some(s4);
      ReachOne(w, s3, s4);
      ReachStep(w, s2, s3, s4);
      ReachStep(w, s1, s2, s4);
      ReachStep(w, s0, s1, s4);
    } else {
      var s3 := State(a + 7 + n, ds[1..], rs);
      assert Step(w, s2) == Some(s3);
      ReachOne(w, s2, s3);
      ReachStep(w, s1, s2, s3);
      ReachStep(w, s0, s1, s3);
    }
  }

  lemma {:induction false} SimDo(w: Image, defs: seq<Stmt>, f: nat, self: nat, q: bool, b: Stmt, p: bool, a: int,
                                 pos: nat, ds: seq<int>, rs: seq<int>, loops: seq<Loop>)
    requires Placed(w, defs, self, Do(q, b, p), a, pos) && Frames(w.mem, rs, loops)
    ensures Simulates(w, self, f, State(a, ds, rs), a + Size(defs, self, Do(q, b, p), pos), loops,
                      Eval(w.sem, defs, f, self, Do(q, b, p), ds, loops))
    decreases f, self, Do(q, b, p), 3
  {
    hide Loaded, Frames, Step, CellsAt, EvalDo;
    var s := State(a, ds, rs);
    var x := Emit(b, Unit(self, Bodies(defs, self)), pos + 2);
    var head := [Tok(if q then QDoT else DoT), Val(|x| + 3)];
    var tail := [Tok(if p then PlusLoopT else LoopT), Val(-(|x| + 1))];
    CellsSplit3(w.mem, a, head, x, tail);
    var end := a + |x| + 4;
    if |ds| >= 2 {
      EnterDo(w, a, q, |x| + 3, ds, rs);
      var s' := Step(w, s).val;
      ReachOne(w, s, s');
      if !(q && ds[0] == ds[1]) {
        var l := Loop(ds[1], ds[0]);
        SimLoop(w, defs, f, self, b, p, a, pos, |x|, ds[2..], l, rs, loops);
        var r := EvalDo(w.sem, defs, f, self, b, p, ds[2..], l, loops);
        LoopAfter(w, self, f, s, s', end, rs, loops, r);
      }
    }
  }

  /** What remains to be shown of a counted loop that ends at `end`, its frame over `rs`. */
  ghost predicate LoopEnds(w: Image, self: nat, f: nat, s: State, end: int, rs: seq<int>, loops: seq<Loop>, r: Res) {
    match r
    case Done(ds, how) =>
      if how == Fell then Reaches(w, s, State(end, ds, rs))
      else how.Restarted? && Restarts(w, self, s, rs, |loops|, ds, how.deep)
    case Timeout => Runs(w, f, s)
    case Wrong => true
  }

  lemma {:induction false} LoopAfter(w: Image, self: nat, f: nat, s: State, t: State, end: int, rs: seq<int>,
                                     loops: seq<Loop>, r: Res)
    requires Reaches(w, s, t) && LoopEnds(w, self, f, t, end, rs, loops, r)
    ensures LoopEnds(w, self, f, s, end, rs, loops, r)
  {
    match r
    case Done(ds, how) =>
      if how == Fell { ReachTrans(w, s, t, State(end, ds, rs)); }
      else { RestartsAfter(w, self, s, t, rs, |loops|, ds, how.deep); }
    case Timeout => RunsAfter(w, f, s, t);
    case Wrong =>
  }

  /** A restart inside the loop, seen from outside. */
  lemma {:induction false} RestartsOut(w: Image, self: nat, s: State, rs: seq<int>, rs1: seq<int>, m: nat, ds: seq<int>,
                                       n: nat)
    requires Restarts(w, self, s, rs1, m + 1, ds, n) && |rs1| >= 3 && rs1[3..] == rs
    ensures Restarts(w, self, s, rs, m, ds, n)
  {
    var rs' :| Deeper(rs', rs1, n, m + 1) && Arrives(w, s, State(w.entry[self], ds, rs'));
    assert rs1[3 * (m + 1)..] == rs1[3..][3 * m..];
    assert Deeper(rs', rs, n, m);
  }

  /** The counted loop from the start of its body, its frame on the return stack. */
  lemma {:induction false} SimLoop(w: Image, defs: seq<Stmt>, f: nat, self: nat, b: Stmt, p: bool, a: int, pos: nat,
                                   n: nat, ds: seq<int>, l: Loop, rs: seq<int>, loops: seq<Loop>)
    requires Placed(w, defs, self, b, a + 2, pos + 2) && n == Size(defs, self, b, pos + 2)
    requires Frames(w.mem, rs, loops) && 0 <= a && a + 1 < |w.mem| && w.mem[a + 1] == Val(n + 3)
    requires CellsAt(w.mem, a + 2 + n, [Tok(if p then PlusLoopT else LoopT), Val(-(n + 1))])
    ensures LoopEnds(w, self, f, State(a + 2, ds, [l.limit, l.index, a + 1] + rs), a + n + 4, rs, loops,
                     EvalDo(w.sem, defs, f, self, b, p, ds, l, loops))
    decreases f, self, b, 5
  {
    hide Loaded, Step, CellsAt, Emit, Placed, Frames, Eval, Arrives;
    var rs1 := [l.limit, l.index, a + 1] + rs;
    LoopFrame(w, rs, a, n, l, loops);
    var s := State(a + 2, ds, rs1);
    Simulation(w, defs, f, self, b, a + 2, pos + 2, ds, rs1, [l] + loops);
    var r := Eval(w.sem, defs, f, self, b, ds, [l] + loops);
    if r.Done? && r.how == Fell && !(p && r.ds == []) {
      var t := State(a + 2 + n, r.ds, rs1);
      NextLoop(w, a + 2 + n, p, -(n + 1), r.ds, l.limit, l.index, a + 1, rs);
      var t' := Step(w, t).val;
      var d := if p then r.ds[0] else 1;
      var l' := Loop(l.limit, Wrap(l.index + d));
      if !Continues(d, l.limit, l'.index) {
        ReachOne(w, t, t');
        ReachTrans(w, s, t, t');
      } else if f > 0 {
        SimLoop(w, defs, f - 1, self, b, p, a, pos, n, t'.ds, l', rs, loops);
        LoopAgain(w, self, f, s, t, t', a + n + 4, rs, loops, EvalDo(w.sem, defs, f - 1, self, b, p, t'.ds, l', loops));
      }
    } else if r.Done? && r.how.Restarted? {
      RestartsOut(w, self, s, rs, rs1, |loops|, r.ds, r.how.deep);
    }
  }

  lemma {:induction false} LoopFrame(w: Image, rs: seq<int>, a: int, n: nat, l: Loop, loops: seq<Loop>)
    requires Frames(w.mem, rs, loops) && 0 <= a && a + 1 < |w.mem| && w.mem[a + 1] == Val(n + 3)
    ensures var rs1 := [l.limit, l.index, a + 1] + rs;
            rs1[3..] == rs && Frames(w.mem, rs1, [l] + loops) && Target(w.mem, a + 1) == Some(a + n + 4)
  {
    assert ([l] + loops)[1..] == loops && ([l.limit, l.index, a + 1] + rs)[3..] == rs;
  }

  lemma {:induction false} LoopAgain(w: Image, self: nat, f: nat, s: State, t: State, t': State, end: int, rs: seq<int>,
                                     loops: seq<Loop>, r: Res)
    requires Reaches(w, s, t) && Step(w, t) == Some(t') && f > 0 && LoopEnds(w, self, f - 1, t', end, rs, loops, r)
    ensures LoopEnds(w, self, f, s, end, rs, loops, r)
  {
    if r.Timeout? {
      RunsAfterStep(w, f, s, t, t');
    } else {
      ReachOne(w, t, t');
      ReachTrans(w, s, t, t');
      LoopAfter(w, self, f - 1, s, t', end, rs, loops, r);
    }
  }
}
