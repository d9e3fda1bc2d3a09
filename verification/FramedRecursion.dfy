/** `tail-recurse` against `recurse exit` in definitions with an argument frame: replacing one
    by the other throughout a program changes no result of any definition. */
module FramedRecursion {
  import opened ThreadedCode
  import opened Options
  import opened Frames
  import opened Structured
  import opened TailRecursion

  function FRecurseExit(d: nat): FStmt { FSeq(FCall(d), FExit) }

  /** The statement of definition `d` with `recurse exit` for every `tail-recurse`. */
  function FUntail(d: nat, c: FStmt): FStmt {
    match c
    case FSeq(a, b) => FSeq(FUntail(d, a), FUntail(d, b))
    case FIf(t, e) => FIf(FUntail(d, t), FUntail(d, e))
    case FWhile(t, b) => FWhile(FUntail(d, t), FUntail(d, b))
    case FDo(b, plus) => FDo(FUntail(d, b), plus)
    case FTail => FRecurseExit(d)
    case _ => c
  }

  function FUntailed(defs: seq<FDef>): (r: seq<FDef>)
    ensures |r| == |defs|
    ensures forall d :: 0 <= d < |defs| ==> r[d] == defs[d].(body := FUntail(d, defs[d].body))
  {
    seq(|defs|, d requires 0 <= d < |defs| => defs[d].(body := FUntail(d, defs[d].body)))
  }

  /** `r`, got with fuel `f` in the body of `d`, and `r'`, got with `g` after the replacement:
      the same result, or `r'` is that of the call which takes the place of the restart. */
  ghost predicate FMatch(forth: bool, sem: Sem, defs': seq<FDef>, f: nat, g: nat, d: nat, r: FRes, r': FRes)
    requires d < |defs'|
  {
    (if forth then !r.FDone? else !r'.FDone?) ||
    (if r.FDone? && r.how == HRestarted then
       exists h: nat :: g - f <= h <= g && r' == FEval(sem, defs', h, d, FRecurseExit(d), r.ds, r.vars, [])
     else r' == r)
  }

  lemma {:induction false} FRecurseExitEnds(sem: Sem, defs: seq<FDef>, h: nat, d: nat, ds: seq<int>,
                                            vars: seq<Opt<int>>)
    requires d < |defs|
    ensures FEval(sem, defs, h, d, FRecurseExit(d), ds, vars, []) ==
            (var r := FEvalCall(sem, defs, h, d, ds, vars); if r.FDone? then FDone(r.ds, r.vars, HReturned) else r)
  {
    var r := FEval(sem, defs, h, d, FCall(d), ds, vars, []);
    assert r == FEvalCall(sem, defs, h, d, ds, vars);
    if r.FDone? { assert FEval(sem, defs, h, d, FExit, r.ds, r.vars, []) == FDone(r.ds, r.vars, HReturned); }
  }

  lemma {:induction false} FRecurseExitStuck(sem: Sem, defs: seq<FDef>, h: nat, d: nat, ds: seq<int>,
                                             vars: seq<Opt<int>>, loops: seq<Loop>)
    requires d < |defs| && loops != []
    ensures !FEval(sem, defs, h, d, FRecurseExit(d), ds, vars, loops).FDone?
  {
    var r := FEval(sem, defs, h, d, FCall(d), ds, vars, loops);
    assert r == FEvalCall(sem, defs, h, d, ds, vars);
    if r.FDone? { assert FEval(sem, defs, h, d, FExit, r.ds, r.vars, loops) == FWrong; }
  }

  /** What does not fall through on both sides ends the whole. */
  lemma {:induction false} FMatchOn(forth: bool, sem: Sem, defs': seq<FDef>, f: nat, g: nat, d: nat,
                                    r: FRes, r': FRes, t: FRes, t': FRes)
    requires d < |defs'| && FMatch(forth, sem, defs', f, g, d, r, r')
    requires !(r.FDone? && r.how == HFell) ==> t == r
    requires !(r'.FDone? && r'.how == HFell) ==> t' == r'
    requires !(r.FDone? && r.how == HFell && r == r')
    ensures FMatch(forth, sem, defs', f, g, d, t, t')
  {
    hide FEval, FEvalCall;
    if r.FDone? && r.how == HRestarted && (forth || r'.FDone?) {
      var h: nat :| g - f <= h <= g && r' == FEval(sem, defs', h, d, FRecurseExit(d), r.ds, r.vars, []);
      FRecurseExitEnds(sem, defs', h, d, r.ds, r.vars);
    }
  }

  lemma {:induction false} FMatchLater(forth: bool, sem: Sem, defs': seq<FDef>, f: nat, g: nat, d: nat, r: FRes,
                                       r': FRes)
    requires d < |defs'| && f > 0 && g > 0 && FMatch(forth, sem, defs', f - 1, g - 1, d, r, r')
    ensures FMatch(forth, sem, defs', f, g, d, r, r')
  {
    hide FEval;
  }

  lemma {:induction false} FUntailEval(forth: bool, sem: Sem, defs: seq<FDef>, f: nat, g: nat, d: nat, c: FStmt,
                                       ds: seq<int>, vars: seq<Opt<int>>, loops: seq<Loop>)
    requires Fuels(forth, f, g) && d < |defs|
    ensures FMatch(forth, sem, FUntailed(defs), f, g, d, FEval(sem, defs, f, d, c, ds, vars, loops),
                   FEval(sem, FUntailed(defs), g, d, FUntail(d, c), ds, vars, loops))
    decreases f + g, 1, c, 1
  {
    var defs' := FUntailed(defs);
    match c
    case FSeq(a, b) =>
      FUntailEval(forth, sem, defs, f, g, d, a, ds, vars, loops);
      var r, r' := FEval(sem, defs, f, d, a, ds, vars, loops), FEval(sem, defs', g, d, FUntail(d, a), ds, vars, loops);
      if r.FDone? && r.how == HFell && r == r' {
        FUntailEval(forth, sem, defs, f, g, d, b, r.ds, r.vars, loops);
      } else {
        FMatchOn(forth, sem, defs', f, g, d, r, r', FEval(sem, defs, f, d, c, ds, vars, loops),
                 FEval(sem, defs', g, d, FUntail(d, c), ds, vars, loops));
      }
    case FIf(t, e) =>
      if ds != [] { FUntailEval(forth, sem, defs, f, g, d, if ds[0] != 0 then t else e, ds[1..], vars, loops); }
    case FWhile(t, b) => FUntailWhile(forth, sem, defs, f, g, d, t, b, ds, vars, loops);
    case FCall(e) => FUntailCall(forth, sem, defs, f, g, e, ds, vars);
    case FDo(b, plus) =>
      if |ds| >= 2 { FUntailLoop(forth, sem, defs, f, g, d, b, plus, Loop(ds[1], ds[0]), ds[2..], vars, loops); }
    case FTail =>
      if loops == [] {
        assert FEval(sem, defs, f, d, c, ds, vars, loops) == FDone(ds, vars, HRestarted);
      } else {
        FRecurseExitStuck(sem, defs', g, d, ds, vars, loops);
      }
    case _ =>
  }

  lemma {:induction false} FUntailWhile(forth: bool, sem: Sem, defs: seq<FDef>, f: nat, g: nat, d: nat, t: FStmt,
                                        b: FStmt, ds: seq<int>, vars: seq<Opt<int>>, loops: seq<Loop>)
    requires Fuels(forth, f, g) && d < |defs|
    ensures FMatch(forth, sem, FUntailed(defs), f, g, d, FEval(sem, defs, f, d, FWhile(t, b), ds, vars, loops),
                   FEval(sem, FUntailed(defs), g, d, FUntail(d, FWhile(t, b)), ds, vars, loops))
    decreases f + g, 1, FWhile(t, b), 0
  {
    hide FMatch, Fuels;
    var defs' := FUntailed(defs);
    FUntailEval(forth, sem, defs, f, g, d, t, ds, vars, loops);
    var r, r' := FEval(sem, defs, f, d, t, ds, vars, loops), FEval(sem, defs', g, d, FUntail(d, t), ds, vars, loops);
    var u, u' := FEval(sem, defs, f, d, FWhile(t, b), ds, vars, loops),
      FEval(sem, defs', g, d, FUntail(d, FWhile(t, b)), ds, vars, loops);
    if !(r.FDone? && r.how == HFell && r == r') {
      FMatchOn(forth, sem, defs', f, g, d, r, r', u, u');
    } else if r.ds == [] || r.ds[0] == 0 {
      FSame(forth, sem, defs', f, g, d, u);
    } else {
      FUntailRepeat(forth, sem, defs, f, g, d, t, b, r.ds[1..], r.vars, loops);
    }
  }

  lemma {:induction false} FSame(forth: bool, sem: Sem, defs': seq<FDef>, f: nat, g: nat, d: nat, r: FRes)
    requires d < |defs'| && !(r.FDone? && r.how == HRestarted)
    ensures FMatch(forth, sem, defs', f, g, d, r, r)
  {}

  lemma {:induction false} FNoFuel(forth: bool, sem: Sem, defs': seq<FDef>, f: nat, g: nat, d: nat, r: FRes, r': FRes)
    requires d < |defs'| && Fuels(forth, f, g) && (f == 0 ==> r == FTimeout) && (g == 0 ==> r' == FTimeout)
    requires f == 0 || g == 0
    ensures FMatch(forth, sem, defs', f, g, d, r, r')
  {
    FuelsLater(forth, f, g);
  }

  lemma {:induction false} FUntailRepeat(forth: bool, sem: Sem, defs: seq<FDef>, f: nat, g: nat, d: nat, t: FStmt,
                                         b: FStmt, ds: seq<int>, vars: seq<Opt<int>>, loops: seq<Loop>)
    requires Fuels(forth, f, g) && d < |defs|
    ensures FMatch(forth, sem, FUntailed(defs), f, g, d, FRepeat(sem, defs, f, d, t, b, ds, vars, loops),
                   FRepeat(sem, FUntailed(defs), g, d, FUntail(d, t), FUntail(d, b), ds, vars, loops))
    decreases f + g, 1, b, 2
  {
    var defs' := FUntailed(defs);
    FuelsLater(forth, f, g);
    hide FMatch, Fuels, FEval;
    FUntailEval(forth, sem, defs, f, g, d, b, ds, vars, loops);
    var r, r' := FEval(sem, defs, f, d, b, ds, vars, loops), FEval(sem, defs', g, d, FUntail(d, b), ds, vars, loops);
    var u := FRepeat(sem, defs, f, d, t, b, ds, vars, loops);
    var u' := FRepeat(sem, defs', g, d, FUntail(d, t), FUntail(d, b), ds, vars, loops);
    if !(r.FDone? && r.how == HFell && r == r') {
      FMatchOn(forth, sem, defs', f, g, d, r, r', u, u');
    } else if f > 0 && g > 0 {
      FUntailEval(forth, sem, defs, f - 1, g - 1, d, FWhile(t, b), r.ds, r.vars, loops);
      FMatchLater(forth, sem, defs', f, g, d, u, u');
    } else {
      FNoFuel(forth, sem, defs', f, g, d, u, u');
    }
  }

  lemma {:induction false} FUntailLoop(forth: bool, sem: Sem, defs: seq<FDef>, f: nat, g: nat, d: nat, b: FStmt,
                                       plus: bool, l: Loop, ds: seq<int>, vars: seq<Opt<int>>, loops: seq<Loop>)
    requires Fuels(forth, f, g) && d < |defs|
    ensures FMatch(forth, sem, FUntailed(defs), f, g, d, FLoop(sem, defs, f, d, b, plus, l, ds, vars, loops),
                   FLoop(sem, FUntailed(defs), g, d, FUntail(d, b), plus, l, ds, vars, loops))
    decreases f + g, 1, b, 2
  {
    hide FMatch, Fuels, FEval, TurnOf;
    var defs' := FUntailed(defs);
    FuelsLater(forth, f, g);
    FUntailEval(forth, sem, defs, f, g, d, b, ds, vars, [l] + loops);
    var r, r' := FEval(sem, defs, f, d, b, ds, vars, [l] + loops),
                 FEval(sem, defs', g, d, FUntail(d, b), ds, vars, [l] + loops);
    var u := FLoop(sem, defs, f, d, b, plus, l, ds, vars, loops);
    var u' := FLoop(sem, defs', g, d, FUntail(d, b), plus, l, ds, vars, loops);
    if r.FDone? && r == r' && r.how == HLeft {
      FSame(forth, sem, defs', f, g, d, u);
    } else if !(r.FDone? && r.how == HFell && r == r') {
      FTurnEnds(forth, sem, defs', f, g, d, r, r', u, u');
    } else if TurnOf(plus, r.ds, l).None? || !TurnOf(plus, r.ds, l).val.again {
      FSame(forth, sem, defs', f, g, d, u);
    } else if f > 0 && g > 0 {
      var t := TurnOf(plus, r.ds, l).val;
      FUntailLoop(forth, sem, defs, f - 1, g - 1, d, b, plus, t.loop, t.ds, r.vars, loops);
      FMatchLater(forth, sem, defs', f, g, d, u, u');
    } else {
      FNoFuel(forth, sem, defs', f, g, d, u, u');
    }
  }

  /** A turn that does not come to the loop's test on both sides. */
  lemma {:induction false} FTurnEnds(forth: bool, sem: Sem, defs': seq<FDef>, f: nat, g: nat, d: nat,
                                     r: FRes, r': FRes, u: FRes, u': FRes)
    requires d < |defs'| && FMatch(forth, sem, defs', f, g, d, r, r')
    requires !(r.FDone? && (r.how == HFell || r.how == HLeft)) ==> u == r
    requires !(r'.FDone? && (r'.how == HFell || r'.how == HLeft)) ==> u' == r'
    requires !(r.FDone? && (r.how == HFell || r.how == HLeft) && r == r')
    ensures FMatch(forth, sem, defs', f, g, d, u, u')
  {
    hide FEval, FEvalCall;
    if r.FDone? && r.how == HRestarted && (forth || r'.FDone?) {
      var h: nat :| g - f <= h <= g && r' == FEval(sem, defs', h, d, FRecurseExit(d), r.ds, r.vars, []);
      FRecurseExitEnds(sem, defs', h, d, r.ds, r.vars);
    }
  }

  lemma {:induction false} FUntailCall(forth: bool, sem: Sem, defs: seq<FDef>, f: nat, g: nat, e: nat,
                                       ds: seq<int>, vars: seq<Opt<int>>)
    requires Fuels(forth, f, g)
    ensures var t, t' := FEvalCall(sem, defs, f, e, ds, vars), FEvalCall(sem, FUntailed(defs), g, e, ds, vars);
            ((if forth then !t.FDone? else !t'.FDone?) || t == t') && (t.FDone? ==> t.how == HFell)
    decreases f + g, 0
  {
    FuelsLater(forth, f, g);
    if e < |defs| && |ds| >= defs[e].args && f > 0 && g > 0 {
      FUntailApply(forth, sem, defs, f - 1, g - 1, e, ds[..defs[e].args]);
    }
  }

  lemma {:induction false} FUntailApply(forth: bool, sem: Sem, defs: seq<FDef>, f: nat, g: nat, d: nat, top: seq<int>)
    requires Fuels(forth, f, g) && d < |defs|
    ensures var t, t' := Apply(sem, defs, f, d, top), Apply(sem, FUntailed(defs), g, d, top);
            (if forth then !t.DDone? else !t'.DDone?) || t == t'
    decreases f + g, 2
  {
    var defs', vars, n := FUntailed(defs), Initial(top, defs[d].locals), defs[d].args;
    FUntailEval(forth, sem, defs, f, g, d, defs[d].body, [], vars, []);
    var r, r' := FEval(sem, defs, f, d, defs[d].body, [], vars, []),
      FEval(sem, defs', g, d, defs'[d].body, [], vars, []);
    hide FEval, Initial;
    if r.FDone? && r.how == HRestarted && (forth || r'.FDone?) {
      var h: nat :| g - f <= h <= g && r' == FEval(sem, defs', h, d, FRecurseExit(d), r.ds, r.vars, []);
      FRecurseExitEnds(sem, defs', h, d, r.ds, r.vars);
      if f > 0 && h > 0 && |r.ds| >= n { FUntailApply(forth, sem, defs, f - 1, h - 1, d, r.ds[..n]); }
    }
  }

  /** A framed definition has results if and only if it has them after the replacement. */
  lemma {:induction false} FramedTailIsRecurseExit(sem: Sem, defs: seq<FDef>, d: nat, top: seq<int>, x: seq<int>)
    requires d < |defs|
    ensures (exists f: nat :: Apply(sem, defs, f, d, top) == DDone(x)) <==>
            (exists g: nat :: Apply(sem, FUntailed(defs), g, d, top) == DDone(x))
  {
    if f: nat :| Apply(sem, defs, f, d, top) == DDone(x) {
      FUntailApply(true, sem, defs, f, Enough(f), d, top);
    } else if g: nat :| Apply(sem, FUntailed(defs), g, d, top) == DDone(x) {
      FUntailApply(false, sem, defs, g, g, d, top);
    }
  }
}
