/** `tail-recurse` against `recurse exit`: replacing one by the other throughout a program
    changes no result of any definition. */
module TailRecursion {
  import opened ControlSyntax
  import opened ThreadedCode
  import opened Options
  import opened Arithmetic
  import opened Structured
  import opened CompilerCorrectness

  const RECURSE_EXIT := Seq(Atom(WRecurse), Atom(WExit))

  /** The statement with `recurse exit` for every `tail-recurse`. */
  function Untail(c: Stmt): Stmt {
    match c
    case Skip => c
    case Seq(a, b) => Seq(Untail(a), Untail(b))
    case Atom(w) => if w.WTailRecurse? then RECURSE_EXIT else c
    case If(t) => If(Untail(t))
    case IfElse(t, e) => IfElse(Untail(t), Untail(e))
    case Again(b) => Again(Untail(b))
    case Until(b) => Until(Untail(b))
    case While(t, b) => While(Untail(t), Untail(b))
    case Case(arms) => Case(UntailArms(arms))
    case Do(q, b, p) => Do(q, Untail(b), p)
  }

  function UntailArms(arms: Arms): Arms {
    match arms
    case Default(d) => Default(Untail(d))
    case Arm(p, b, rest) => Arm(Untail(p), Untail(b), UntailArms(rest))
  }

  function Untailed(defs: seq<Stmt>): (r: seq<Stmt>)
    ensures |r| == |defs| && forall d :: 0 <= d < |defs| ==> r[d] == Untail(defs[d])
  {
    seq(|defs|, d requires 0 <= d < |defs| => Untail(defs[d]))
  }

  /** A macro body has no `tail-recurse` to replace. */
  lemma {:induction false} CopyableUntail(c: Stmt)
    ensures Copyable(Untail(c)) <==> Copyable(c)
    ensures Copyable(c) ==> Untail(c) == c
  {
    match c
    case Skip =>
    case Seq(a, b) => CopyableUntail(a); CopyableUntail(b);
    case Atom(w) =>
    case If(t) => CopyableUntail(t);
    case IfElse(t, e) => CopyableUntail(t); CopyableUntail(e);
    case Again(b) => CopyableUntail(b);
    case Until(b) => CopyableUntail(b);
    case While(t, b) => CopyableUntail(t); CopyableUntail(b);
    case Case(arms) => CopyableUntailArms(arms);
    case Do(_, b, _) => CopyableUntail(b);
  }

  lemma {:induction false} CopyableUntailArms(arms: Arms)
    ensures CopyableArms(UntailArms(arms)) <==> CopyableArms(arms)
    ensures CopyableArms(arms) ==> UntailArms(arms) == arms
  {
    match arms
    case Default(d) => CopyableUntail(d);
    case Arm(p, b, rest) => CopyableUntail(p); CopyableUntail(b); CopyableUntailArms(rest);
  }

  /** Fuel with which `recurse` reaches what `tail-recurse` reaches with `f`: a call costs one
      unit where a restart keeps what the loops of the round before have used. */
  function Enough(f: nat): nat { if f == 0 then 0 else f + 1 + Enough(f - 1) }

  /** The fuels of the two programs: `forth` from `tail-recurse` to `recurse exit`, or back. */
  predicate Fuels(forth: bool, f: nat, g: nat) { if forth then g >= Enough(f) else f >= g }

  /** `r`, got with fuel `f` in `self`, and `r'`, got with `g` after the replacement: the same
      result, or `r'` is that of the call which takes the place of the restart, or there are no
      results as the loops of both are in the way. Nothing is said where the one the direction
      starts from has no result. */
  ghost predicate Match(forth: bool, sem: Sem, defs': seq<Stmt>, f: nat, g: nat, self: nat,
                        r: Res, r': Res, loops: seq<Loop>) {
    (if forth then !r.Done? else !r'.Done?) ||
    (if r.Done? && r.how.Restarted? && r.how.deep > 0 then !r'.Done?
     else if r.Done? && r.how.Restarted? then
       loops == [] && exists h: nat :: g - f <= h <= g && r' == Eval(sem, defs', h, self, RECURSE_EXIT, r.ds, [])
     else r' == r)
  }

  lemma {:induction false} RecurseExitEnds(sem: Sem, defs: seq<Stmt>, h: nat, self: nat, ds: seq<int>)
    ensures Eval(sem, defs, h, self, RECURSE_EXIT, ds, []) ==
            if self >= |defs| then Wrong
            else if h == 0 then Timeout
            else (var e := Enter(sem, defs, h - 1, self, ds); if e.Done? then Done(e.ds, Returned) else e)
  {
    var e := EvalAtom(sem, defs, h, self, WRecurse, ds, []);
    assert Eval(sem, defs, h, self, Atom(WRecurse), ds, []) == e;
    if e.Done? { assert Eval(sem, defs, h, self, Atom(WExit), e.ds, []) == Done(e.ds, Returned); }
  }

  /** A matched part falls through on both sides or on none. */
  lemma {:induction false} MatchFell(forth: bool, sem: Sem, defs': seq<Stmt>, f: nat, g: nat, self: nat,
                                     r: Res, r': Res, loops: seq<Loop>)
    requires Match(forth, sem, defs', f, g, self, r, r', loops)
    ensures r.Done? && r.how == Fell ==> r == r' || (!forth && !r'.Done?)
    ensures r'.Done? && r'.how == Fell ==> r == r' || (forth && !r.Done?)
  {
    if r.Done? && r.how == Restarted(0) && r' != r && r'.Done? {
      var h: nat :| g - f <= h <= g && r' == Eval(sem, defs', h, self, RECURSE_EXIT, r.ds, []);
      RecurseExitEnds(sem, defs', h, self, r.ds);
    }
  }

  /** The same number of loop turns later. */
  lemma {:induction false} MatchLater(forth: bool, sem: Sem, defs': seq<Stmt>, f: nat, g: nat, self: nat,
                                      r: Res, r': Res, loops: seq<Loop>)
    requires f > 0 && g > 0 && Match(forth, sem, defs', f - 1, g - 1, self, r, r', loops)
    ensures Match(forth, sem, defs', f, g, self, r, r', loops)
  {
    hide Eval;
  }

  lemma {:induction false} FuelsLater(forth: bool, f: nat, g: nat)
    requires Fuels(forth, f, g)
    ensures f > 0 && g > 0 ==> Fuels(forth, f - 1, g - 1)
    ensures if forth then f > 0 ==> g > 0 else g > 0 ==> f > 0
  {}

  lemma {:induction false} UntailEval(forth: bool, sem: Sem, defs: seq<Stmt>, f: nat, g: nat, self: nat, c: Stmt,
                                      ds: seq<int>, loops: seq<Loop>)
    requires Fuels(forth, f, g)
    ensures Match(forth, sem, Untailed(defs), f, g, self, Eval(sem, defs, f, self, c, ds, loops),
                  Eval(sem, Untailed(defs), g, self, Untail(c), ds, loops), loops)
    decreases f + g, self, c, 4
  {
    match c
    case Skip =>
    case Seq(a, b) => UntailSeq(forth, sem, defs, f, g, self, a, b, ds, loops);
    case Atom(w) => UntailAtom(forth, sem, defs, f, g, self, w, ds, loops);
    case If(t) => if ds != [] { UntailEval(forth, sem, defs, f, g, self, t, ds[1..], loops); }
    case IfElse(t, e) =>
      if ds != [] { UntailEval(forth, sem, defs, f, g, self, if ds[0] != 0 then t else e, ds[1..], loops); }
    case Again(b) => UntailAgain(forth, sem, defs, f, g, self, b, ds, loops);
    case Until(b) => UntailUntil(forth, sem, defs, f, g, self, b, ds, loops);
    case While(t, b) => UntailWhile(forth, sem, defs, f, g, self, t, b, ds, loops);
    case Case(arms) => UntailEvalArms(forth, sem, defs, f, g, self, arms, ds, loops);
    case Do(q, b, p) =>
      if |ds| >= 2 && !(q && ds[0] == ds[1]) {
        UntailDo(forth, sem, defs, f, g, self, b, p, ds[2..], Loop(ds[1], ds[0]), loops);
      }
  }

  lemma {:induction false} UntailSeq(forth: bool, sem: Sem, defs: seq<Stmt>, f: nat, g: nat, self: nat, a: Stmt,
                                     b: Stmt, ds: seq<int>, loops: seq<Loop>)
    requires Fuels(forth, f, g)
    ensures Match(forth, sem, Untailed(defs), f, g, self, Eval(sem, defs, f, self, Seq(a, b), ds, loops),
                  Eval(sem, Untailed(defs), g, self, Untail(Seq(a, b)), ds, loops), loops)
    decreases f + g, self, Seq(a, b), 3
  {
    hide Match, Fuels;
    var defs' := Untailed(defs);
    UntailEval(forth, sem, defs, f, g, self, a, ds, loops);
    var r, r' := Eval(sem, defs, f, self, a, ds, loops), Eval(sem, defs', g, self, Untail(a), ds, loops);
    MatchFell(forth, sem, defs', f, g, self, r, r', loops);
    if r.Done? && r.how == Fell && r == r' {
      UntailEval(forth, sem, defs, f, g, self, b, r.ds, loops);
    } else {
      MatchOn(forth, sem, defs', f, g, self, r, r', loops,
              Eval(sem, defs, f, self, Seq(a, b), ds, loops), Eval(sem, defs', g, self, Untail(Seq(a, b)), ds, loops));
    }
  }

  /** What does not fall through on both sides ends the whole. */
  lemma {:induction false} MatchOn(forth: bool, sem: Sem, defs': seq<Stmt>, f: nat, g: nat, self: nat,
                                   r: Res, r': Res, loops: seq<Loop>, t: Res, t': Res)
    requires Match(forth, sem, defs', f, g, self, r, r', loops)
    requires !(r.Done? && r.how == Fell) ==> t == r
    requires !(r'.Done? && r'.how == Fell) ==> t' == r'
    requires !(r.Done? && r.how == Fell && r == r')
    ensures Match(forth, sem, defs', f, g, self, t, t', loops)
  {
    MatchFell(forth, sem, defs', f, g, self, r, r', loops);
    hide Eval;
  }

  lemma {:induction false} UntailAtom(forth: bool, sem: Sem, defs: seq<Stmt>, f: nat, g: nat, self: nat, w: Word,
                                      ds: seq<int>, loops: seq<Loop>)
    requires Fuels(forth, f, g)
    ensures Match(forth, sem, Untailed(defs), f, g, self, Eval(sem, defs, f, self, Atom(w), ds, loops),
                  Eval(sem, Untailed(defs), g, self, Untail(Atom(w)), ds, loops), loops)
    decreases f + g, self, Atom(w), 3
  {
    var defs' := Untailed(defs);
    FuelsLater(forth, f, g);
    if w.WTailRecurse? {
      if loops != [] { InLoops(sem, defs', g, self, ds, loops); }
      else { assert Eval(sem, defs, f, self, Atom(w), ds, loops) == Done(ds, Restarted(0)); }
    } else if (w.WCall? && w.d < |defs|) || (w.WRecurse? && self < |defs|) {
      if f > 0 && g > 0 { UntailEnter(forth, sem, defs, f - 1, g - 1, if w.WCall? then w.d else self, ds); }
    } else if w.WMacro? && w.d < self && w.d < |defs| {
      CopyableUntail(defs[w.d]);
      if Copyable(defs[w.d]) {
        UntailEval(forth, sem, defs, f, g, w.d, defs[w.d], ds, loops);
        CopyableNeverReturns(sem, defs, f, w.d, defs[w.d], ds, loops);
      }
    }
  }

  lemma {:induction false} InLoops(sem: Sem, defs: seq<Stmt>, g: nat, self: nat, ds: seq<int>, loops: seq<Loop>)
    requires loops != []
    ensures Eval(sem, defs, g, self, RECURSE_EXIT, ds, loops) in {Wrong, Timeout}
  {
    var e := EvalAtom(sem, defs, g, self, WRecurse, ds, loops);
    assert Eval(sem, defs, g, self, Atom(WRecurse), ds, loops) == e;
    if e.Done? { assert Eval(sem, defs, g, self, Atom(WExit), e.ds, loops) == Wrong; }
  }

  lemma {:induction false} UntailAgain(forth: bool, sem: Sem, defs: seq<Stmt>, f: nat, g: nat, self: nat, b: Stmt,
                                       ds: seq<int>, loops: seq<Loop>)
    requires Fuels(forth, f, g)
    ensures Match(forth, sem, Untailed(defs), f, g, self, Eval(sem, defs, f, self, Again(b), ds, loops),
                  Eval(sem, Untailed(defs), g, self, Untail(Again(b)), ds, loops), loops)
    decreases f + g, self, Again(b), 3
  {
    hide Match, Fuels;
    var defs' := Untailed(defs);
    FuelsLater(forth, f, g);
    UntailEval(forth, sem, defs, f, g, self, b, ds, loops);
    var r, r' := Eval(sem, defs, f, self, b, ds, loops), Eval(sem, defs', g, self, Untail(b), ds, loops);
    var t, t' := Eval(sem, defs, f, self, Again(b), ds, loops), Eval(sem, defs', g, self, Untail(Again(b)), ds, loops);
    if r.Done? && r.how == Fell && r == r' {
      if f > 0 && g > 0 {
        UntailEval(forth, sem, defs, f - 1, g - 1, self, Again(b), r.ds, loops);
        MatchLater(forth, sem, defs', f, g, self, t, t', loops);
      } else {
        NoFuel(forth, sem, defs', f, g, self, t, t', loops);
      }
    } else {
      MatchOn(forth, sem, defs', f, g, self, r, r', loops, t, t');
    }
  }

  lemma {:induction false} NoFuel(forth: bool, sem: Sem, defs': seq<Stmt>, f: nat, g: nat, self: nat,
                                  t: Res, t': Res, loops: seq<Loop>)
    requires (f == 0 ==> t == Timeout) && (g == 0 ==> t' == Timeout)
    requires f == 0 || g == 0
    requires if forth then f > 0 ==> g > 0 else g > 0 ==> f > 0
    ensures Match(forth, sem, defs', f, g, self, t, t', loops)
  {}

  lemma {:induction false} SameMatch(forth: bool, sem: Sem, defs': seq<Stmt>, f: nat, g: nat, self: nat, t: Res,
                                     loops: seq<Loop>)
    requires !(t.Done? && t.how.Restarted?)
    ensures Match(forth, sem, defs', f, g, self, t, t, loops)
  {}

  lemma {:induction false} UntailUntil(forth: bool, sem: Sem, defs: seq<Stmt>, f: nat, g: nat, self: nat, b: Stmt,
                                       ds: seq<int>, loops: seq<Loop>)
    requires Fuels(forth, f, g)
    ensures Match(forth, sem, Untailed(defs), f, g, self, Eval(sem, defs, f, self, Until(b), ds, loops),
                  Eval(sem, Untailed(defs), g, self, Untail(Until(b)), ds, loops), loops)
    decreases f + g, self, Until(b), 3
  {
    hide Match, Fuels;
    var defs' := Untailed(defs);
    FuelsLater(forth, f, g);
    UntailEval(forth, sem, defs, f, g, self, b, ds, loops);
    var r, r' := Eval(sem, defs, f, self, b, ds, loops), Eval(sem, defs', g, self, Untail(b), ds, loops);
    var t, t' := Eval(sem, defs, f, self, Until(b), ds, loops), Eval(sem, defs', g, self, Untail(Until(b)), ds, loops);
    if r.Done? && r.how == Fell && r == r' {
      if r.ds == [] || r.ds[0] != 0 {
        SameMatch(forth, sem, defs', f, g, self, t, loops);
      } else if f > 0 && g > 0 {
        UntailEval(forth, sem, defs, f - 1, g - 1, self, Until(b), r.ds[1..], loops);
        MatchLater(forth, sem, defs', f, g, self, t, t', loops);
      } else {
        NoFuel(forth, sem, defs', f, g, self, t, t', loops);
      }
    } else {
      MatchOn(forth, sem, defs', f, g, self, r, r', loops, t, t');
    }
  }

  lemma {:induction false} UntailWhile(forth: bool, sem: Sem, defs: seq<Stmt>, f: nat, g: nat, self: nat, t: Stmt,
                                       b: Stmt, ds: seq<int>, loops: seq<Loop>)
    requires Fuels(forth, f, g)
    ensures Match(forth, sem, Untailed(defs), f, g, self, Eval(sem, defs, f, self, While(t, b), ds, loops),
                  Eval(sem, Untailed(defs), g, self, Untail(While(t, b)), ds, loops), loops)
    decreases f + g, self, While(t, b), 3
  {
    hide Match, Fuels;
    var defs' := Untailed(defs);
    UntailEval(forth, sem, defs, f, g, self, t, ds, loops);
    var r, r' := Eval(sem, defs, f, self, t, ds, loops), Eval(sem, defs', g, self, Untail(t), ds, loops);
    var u, u' := Eval(sem, defs, f, self, While(t, b), ds, loops),
      Eval(sem, defs', g, self, Untail(While(t, b)), ds, loops);
    if r.Done? && r.how == Fell && r == r' {
      if r.ds == [] || r.ds[0] == 0 {
        SameMatch(forth, sem, defs', f, g, self, u, loops);
      } else {
        UntailRepeat(forth, sem, defs, f, g, self, t, b, r.ds[1..], loops);
      }
    } else {
      MatchOn(forth, sem, defs', f, g, self, r, r', loops, u, u');
    }
  }

  /** The body of a `while` loop and what follows it. */
  function Repeat(sem: Sem, defs: seq<Stmt>, f: nat, self: nat, t: Stmt, b: Stmt, ds: seq<int>, loops: seq<Loop>): Res {
    var r := Eval(sem, defs, f, self, b, ds, loops);
    if !(r.Done? && r.how == Fell) then r
    else if f == 0 then Timeout
    else Eval(sem, defs, f - 1, self, While(t, b), r.ds, loops)
  }

  lemma {:induction false} UntailRepeat(forth: bool, sem: Sem, defs: seq<Stmt>, f: nat, g: nat, self: nat, t: Stmt,
                                        b: Stmt, ds: seq<int>, loops: seq<Loop>)
    requires Fuels(forth, f, g)
    ensures Match(forth, sem, Untailed(defs), f, g, self, Repeat(sem, defs, f, self, t, b, ds, loops),
                  Repeat(sem, Untailed(defs), g, self, Untail(t), Untail(b), ds, loops), loops)
    decreases f + g, self, While(t, b), 2
  {
    hide Match, Fuels, Eval;
    var defs' := Untailed(defs);
    FuelsLater(forth, f, g);
    UntailEval(forth, sem, defs, f, g, self, b, ds, loops);
    var r, r' := Eval(sem, defs, f, self, b, ds, loops), Eval(sem, defs', g, self, Untail(b), ds, loops);
    var u, u' := Repeat(sem, defs, f, self, t, b, ds, loops),
      Repeat(sem, defs', g, self, Untail(t), Untail(b), ds, loops);
    if r.Done? && r.how == Fell && r == r' {
      if f > 0 && g > 0 {
        UntailEval(forth, sem, defs, f - 1, g - 1, self, While(t, b), r.ds, loops);
        assert Untail(While(t, b)) == While(Untail(t), Untail(b));
        MatchLater(forth, sem, defs', f, g, self, u, u', loops);
      } else {
        NoFuel(forth, sem, defs', f, g, self, u, u', loops);
      }
    } else {
      MatchOn(forth, sem, defs', f, g, self, r, r', loops, u, u');
    }
  }

  lemma {:induction false} UntailEvalArms(forth: bool, sem: Sem, defs: seq<Stmt>, f: nat, g: nat, self: nat, arms: Arms,
                                          ds: seq<int>, loops: seq<Loop>)
    requires Fuels(forth, f, g)
    ensures Match(forth, sem, Untailed(defs), f, g, self, EvalArms(sem, defs, f, self, arms, ds, loops),
                  EvalArms(sem, Untailed(defs), g, self, UntailArms(arms), ds, loops), loops)
    decreases f + g, self, arms, 3
  {
    hide Match, Fuels;
    var defs' := Untailed(defs);
    var c := if arms.Default? then arms.dflt else arms.pre;
    UntailEval(forth, sem, defs, f, g, self, c, ds, loops);
    var r, r' := Eval(sem, defs, f, self, c, ds, loops), Eval(sem, defs', g, self, Untail(c), ds, loops);
    var t, t' := EvalArms(sem, defs, f, self, arms, ds, loops),
      EvalArms(sem, defs', g, self, UntailArms(arms), ds, loops);
    if !(r.Done? && r.how == Fell && r == r') {
      MatchOn(forth, sem, defs', f, g, self, r, r', loops, t, t');
    } else if arms.Default? || |r.ds| < 2 {
      SameMatch(forth, sem, defs', f, g, self, t, loops);
    } else if r.ds[1] == r.ds[0] {
      UntailEval(forth, sem, defs, f, g, self, arms.arm, r.ds[2..], loops);
    } else {
      UntailEvalArms(forth, sem, defs, f, g, self, arms.rest, r.ds[1..], loops);
    }
  }

  lemma {:induction false} TurnDone(r: Res, plus: bool, l: Loop)
    ensures var t := AfterTurn(r, plus, l); !r.Done? ==> t == Ends(r)
  {}

  lemma {:induction false} UntailDo(forth: bool, sem: Sem, defs: seq<Stmt>, f: nat, g: nat, self: nat, b: Stmt,
                                    plus: bool, ds: seq<int>, l: Loop, loops: seq<Loop>)
    requires Fuels(forth, f, g)
    ensures Match(forth, sem, Untailed(defs), f, g, self, EvalDo(sem, defs, f, self, b, plus, ds, l, loops),
                  EvalDo(sem, Untailed(defs), g, self, Untail(b), plus, ds, l, loops), loops)
    decreases f + g, self, b, 5
  {
    hide Fuels, Eval, Match, AfterTurn;
    var defs' := Untailed(defs);
    FuelsLater(forth, f, g);
    UntailEval(forth, sem, defs, f, g, self, b, ds, [l] + loops);
    var r, r' := Eval(sem, defs, f, self, b, ds, [l] + loops), Eval(sem, defs', g, self, Untail(b), ds, [l] + loops);
    var u, u' := EvalDo(sem, defs, f, self, b, plus, ds, l, loops),
                 EvalDo(sem, defs', g, self, Untail(b), plus, ds, l, loops);
    var t := AfterTurn(r, plus, l);
    if r == r' && t.Next? {
      if f > 0 && g > 0 {
        UntailDo(forth, sem, defs, f - 1, g - 1, self, b, plus, t.ds, t.loop, loops);
        MatchLater(forth, sem, defs', f, g, self, u, u', loops);
      } else {
        NoFuel(forth, sem, defs', f, g, self, u, u', loops);
      }
    } else {
      MatchTurn(forth, sem, defs', f, g, self, r, r', l, loops, plus, u, u');
    }
  }

  /** The last turn of a loop. */
  lemma {:induction false} MatchTurn(forth: bool, sem: Sem, defs': seq<Stmt>, f: nat, g: nat, self: nat, r: Res,
                                     r': Res, l: Loop, loops: seq<Loop>, plus: bool, u: Res, u': Res)
    requires Match(forth, sem, defs', f, g, self, r, r', [l] + loops)
    requires AfterTurn(r, plus, l).Ends? ==> u == AfterTurn(r, plus, l).res
    requires AfterTurn(r', plus, l).Ends? ==> u' == AfterTurn(r', plus, l).res
    requires !(r == r' && AfterTurn(r, plus, l).Next?)
    ensures Match(forth, sem, defs', f, g, self, u, u', loops)
  {
    hide Eval;
  }

  lemma {:induction false} UntailEnter(forth: bool, sem: Sem, defs: seq<Stmt>, f: nat, g: nat, d: nat, ds: seq<int>)
    requires Fuels(forth, f, g) && d < |defs|
    ensures var t, t' := Enter(sem, defs, f, d, ds), Enter(sem, Untailed(defs), g, d, ds);
            (if forth then !t.Done? else !t'.Done?) || t == t'
    decreases f + g, d, defs[d], 5
  {
    var defs' := Untailed(defs);
    UntailEval(forth, sem, defs, f, g, d, defs[d], ds, []);
    var r, r' := Eval(sem, defs, f, d, defs[d], ds, []), Eval(sem, defs', g, d, defs'[d], ds, []);
    if r.Done? && r.how == Restarted(0) && (forth || r'.Done?) {
      var h: nat :| g - f <= h <= g && r' == Eval(sem, defs', h, d, RECURSE_EXIT, r.ds, []);
      RecurseExitEnds(sem, defs', h, d, r.ds);
      if f > 0 && h > 0 { UntailEnter(forth, sem, defs, f - 1, h - 1, d, r.ds); }
    }
  }

  /** A call ends with a stack if and only if it does so after the replacement. */
  lemma {:induction false} TailIsRecurseExit(sem: Sem, defs: seq<Stmt>, d: nat, ds: seq<int>, x: seq<int>)
    requires d < |defs|
    ensures (exists f: nat :: Enter(sem, defs, f, d, ds) == Done(x, Fell)) <==>
            (exists g: nat :: Enter(sem, Untailed(defs), g, d, ds) == Done(x, Fell))
  {
    if f: nat :| Enter(sem, defs, f, d, ds) == Done(x, Fell) {
      UntailEnter(true, sem, defs, f, Enough(f), d, ds);
    } else if g: nat :| Enter(sem, Untailed(defs), g, d, ds) == Done(x, Fell) {
      UntailEnter(false, sem, defs, g, g, d, ds);
    }
  }
}
