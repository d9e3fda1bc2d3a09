/** Macros: a body copied in place of its name against a call of it. */
module Macros {
  import opened ControlSyntax
  import opened ControlCompiler
  import opened ThreadedCode
  import opened Options
  import opened Arithmetic
  import opened Structured
  import opened CompilerCorrectness

  /** `i`, `j` and `leave` stand inside loops of the body itself; `n` of them surround `c`. */
  predicate Closed(defs: seq<Stmt>, self: nat, c: Stmt, n: nat)
    decreases self, c
  {
    match c
    case Skip => true
    case Seq(a, b) => Closed(defs, self, a, n) && Closed(defs, self, b, n)
    case Atom(w) =>
      && (w.WI? || w.WLeave? ==> n >= 1) && (w.WJ? ==> n >= 2)
      && (w.WMacro? && w.d < self && w.d < |defs| ==> Closed(defs, w.d, defs[w.d], n))
    case If(t) => Closed(defs, self, t, n)
    case IfElse(t, e) => Closed(defs, self, t, n) && Closed(defs, self, e, n)
    case Again(b) => Closed(defs, self, b, n)
    case Until(b) => Closed(defs, self, b, n)
    case While(t, b) => Closed(defs, self, t, n) && Closed(defs, self, b, n)
    case Case(arms) => ClosedArms(defs, self, arms, n)
    case Do(_, b, _) => Closed(defs, self, b, n + 1)
  }

  predicate ClosedArms(defs: seq<Stmt>, self: nat, arms: Arms, n: nat)
    decreases self, arms
  {
    match arms
    case Default(d) => Closed(defs, self, d, n)
    case Arm(p, b, rest) => Closed(defs, self, p, n) && Closed(defs, self, b, n) && ClosedArms(defs, self, rest, n)
  }

  /** A closed body means the same whatever loops surround it, and does not leave them. */
  lemma {:induction false} ClosedAnywhere(sem: Sem, defs: seq<Stmt>, f: nat, self: nat, c: Stmt, ds: seq<int>,
                                          inner: seq<Loop>, loops: seq<Loop>)
    requires Closed(defs, self, c, |inner|) && Copyable(c)
    ensures var r := Eval(sem, defs, f, self, c, ds, inner);
            Eval(sem, defs, f, self, c, ds, inner + loops) == r && (r.Done? && r.how == Left ==> inner != [])
    decreases f, self, c, 1
  {
    var all := inner + loops;
    match c
    case Skip =>
    case Seq(a, b) =>
      ClosedAnywhere(sem, defs, f, self, a, ds, inner, loops);
      var r := Eval(sem, defs, f, self, a, ds, inner);
      if r.Done? { ClosedAnywhere(sem, defs, f, self, b, r.ds, inner, loops); }
    case Atom(w) =>
      if w.WMacro? && w.d < self && w.d < |defs| && Copyable(defs[w.d]) {
        ClosedAnywhere(sem, defs, f, w.d, defs[w.d], ds, inner, loops);
      }
      assert EvalAtom(sem, defs, f, self, w, ds, all) == EvalAtom(sem, defs, f, self, w, ds, inner);
    case If(t) => if ds != [] { ClosedAnywhere(sem, defs, f, self, t, ds[1..], inner, loops); }
    case IfElse(t, e) =>
      if ds != [] { ClosedAnywhere(sem, defs, f, self, if ds[0] != 0 then t else e, ds[1..], inner, loops); }
    case Again(b) =>
      ClosedAnywhere(sem, defs, f, self, b, ds, inner, loops);
      var r := Eval(sem, defs, f, self, b, ds, inner);
      if r.Done? && f > 0 { ClosedAnywhere(sem, defs, f - 1, self, c, r.ds, inner, loops); }
    case Until(b) =>
      ClosedAnywhere(sem, defs, f, self, b, ds, inner, loops);
      var r := Eval(sem, defs, f, self, b, ds, inner);
      if r.Done? && r.ds != [] && f > 0 { ClosedAnywhere(sem, defs, f - 1, self, c, r.ds[1..], inner, loops); }
    case While(t, b) =>
      ClosedAnywhere(sem, defs, f, self, t, ds, inner, loops);
      var r := Eval(sem, defs, f, self, t, ds, inner);
      if r.Done? && r.ds != [] {
        ClosedAnywhere(sem, defs, f, self, b, r.ds[1..], inner, loops);
        var r2 := Eval(sem, defs, f, self, b, r.ds[1..], inner);
        if r2.Done? && f > 0 { ClosedAnywhere(sem, defs, f - 1, self, c, r2.ds, inner, loops); }
      }
    case Case(arms) => ClosedArmsAnywhere(sem, defs, f, self, arms, ds, inner, loops);
    case Do(_, b, p) =>
      if |ds| >= 2 { ClosedDoAnywhere(sem, defs, f, self, b, p, ds[2..], Loop(ds[1], ds[0]), inner, loops); }
  }

  lemma {:induction false} ClosedArmsAnywhere(sem: Sem, defs: seq<Stmt>, f: nat, self: nat, arms: Arms, ds: seq<int>,
                                              inner: seq<Loop>, loops: seq<Loop>)
    requires ClosedArms(defs, self, arms, |inner|) && CopyableArms(arms)
    ensures var r := EvalArms(sem, defs, f, self, arms, ds, inner);
            EvalArms(sem, defs, f, self, arms, ds, inner + loops) == r && (r.Done? && r.how == Left ==> inner != [])
    decreases f, self, arms, 1
  {
    match arms
    case Default(d) => ClosedAnywhere(sem, defs, f, self, d, ds, inner, loops);
    case Arm(p, b, rest) =>
      ClosedAnywhere(sem, defs, f, self, p, ds, inner, loops);
      var r := Eval(sem, defs, f, self, p, ds, inner);
      if r.Done? && |r.ds| >= 2 {
        ClosedAnywhere(sem, defs, f, self, b, r.ds[2..], inner, loops);
        ClosedArmsAnywhere(sem, defs, f, self, rest, r.ds[1..], inner, loops);
      }
  }

  lemma {:induction false} ClosedDoAnywhere(sem: Sem, defs: seq<Stmt>, f: nat, self: nat, b: Stmt, plus: bool,
                                            ds: seq<int>, l: Loop, inner: seq<Loop>, loops: seq<Loop>)
    requires Closed(defs, self, b, |inner| + 1) && Copyable(b)
    ensures EvalDo(sem, defs, f, self, b, plus, ds, l, inner + loops) ==
            EvalDo(sem, defs, f, self, b, plus, ds, l, inner)
    ensures var r := EvalDo(sem, defs, f, self, b, plus, ds, l, inner); r.Done? ==> r.how == Fell
    decreases f, self, b, 2
  {
    hide Eval, Closed, Copyable, AfterTurn;
    assert [l] + (inner + loops) == ([l] + inner) + loops;
    ClosedAnywhere(sem, defs, f, self, b, ds, [l] + inner, loops);
    DoNeverReturns(sem, defs, f, self, b, plus, ds, l, inner);
    var t := AfterTurn(Eval(sem, defs, f, self, b, ds, [l] + inner), plus, l);
    if t.Next? && f > 0 { ClosedDoAnywhere(sem, defs, f - 1, self, b, plus, t.ds, t.loop, inner, loops); }
  }

  /** Inlining a closed macro: its body, copied without the final `(;)` to any address `a`,
      does what a call cell at `b` does, on every stack and whatever loops surround it. */
  lemma {:induction false} MacroBehavesAsCall(w: Image, defs: seq<Stmt>, f: nat, self: nat, d: nat, a: int, b: int,
                                              ds: seq<int>, rs: seq<int>, loops: seq<Loop>)
    requires d < self < |defs| && Loaded(w, defs) && Copyable(defs[d]) && Closed(defs, d, defs[d], 0) && rs != []
    requires CellsAt(w.mem, a, Body(defs, d)) && CellsAt(w.mem, b, [Tok(Colon(d))])
    ensures var r := Enter(w.sem, defs, f, d, ds);
            && EvalAtom(w.sem, defs, f, self, WMacro(d), ds, loops) == r
            && EvalAtom(w.sem, defs, f + 1, self, WCall(d), ds, loops) == r
            && (r.Done? ==> Reaches(w, State(a, ds, rs), State(a + |Body(defs, d)|, r.ds, rs)))
            && (r.Done? ==> Reaches(w, State(b, ds, rs), State(b + 1, r.ds, rs)))
            && (r.Timeout? ==> Runs(w, f, State(a, ds, rs)) && Runs(w, f, State(b, ds, rs)))
  {
    assert [] + loops == loops;
    ClosedAnywhere(w.sem, defs, f, d, defs[d], ds, [], loops);
    CopyableNeverReturns(w.sem, defs, f, d, defs[d], ds, []);
    assert Enter(w.sem, defs, f, d, ds) == Eval(w.sem, defs, f, d, defs[d], ds, []);
    SimMacro(w, defs, f, self, d, a, ds, rs, []);
    SimCall(w, defs, f + 1, Atom(WCall(d)), d, b, ds, rs);
    if Enter(w.sem, defs, f, d, ds).Timeout? { RunsPrefix(w, f, f + 1, State(b, ds, rs)); }
  }

  /** The body `i` is not closed. Inside a loop its copy pushes the index, a call of it the
      limit, which the return address has moved to where the index was. */
  lemma {:induction false} FreeIndexDiffers(w: Image, defs: seq<Stmt>, d: nat, a: int, b: int,
                                            ds: seq<int>, rs: seq<int>, limit: int, index: int, at: int)
    requires d < |defs| && Loaded(w, defs) && defs[d] == Atom(WI)
    requires CellsAt(w.mem, a, Body(defs, d)) && CellsAt(w.mem, b, [Tok(Colon(d))])
    ensures Copyable(defs[d]) && !Closed(defs, d, defs[d], 0)
    ensures var rs1 := [limit, index, at] + rs;
            && Reaches(w, State(a, ds, rs1), State(a + 1, [index] + ds, rs1))
            && Reaches(w, State(b, ds, rs1), State(b + 1, [limit] + ds, rs1))
  {
    var rs1 := [limit, index, at] + rs;
    var e := w.entry[d];
    assert Body(defs, d) == [Tok(IT)];
    CellAt(w.mem, a, [Tok(IT)], 0);
    ReachOne(w, State(a, ds, rs1), State(a + 1, [index] + ds, rs1));
    CellAt(w.mem, b, [Tok(Colon(d))], 0);
    CellAt(w.mem, e, [Tok(IT)] + [Tok(Semi)], 0);
    CellAt(w.mem, e, [Tok(IT)] + [Tok(Semi)], 1);
    var s1, s2 := State(e, ds, [b + 1] + rs1), State(e + 1, [limit] + ds, [b + 1] + rs1);
    assert ([b + 1] + rs1)[1..] == rs1;
    ReachOne(w, s2, State(b + 1, [limit] + ds, rs1));
    ReachStep(w, s1, s2, State(b + 1, [limit] + ds, rs1));
    ReachStep(w, State(b, ds, rs1), s1, State(b + 1, [limit] + ds, rs1));
  }
}
