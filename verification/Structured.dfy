/** The meaning of well-nested source, given directly on statements: no addresses, no
    offsets, no return stack. */
module Structured {
  import opened ControlSyntax
  import opened ThreadedCode
  import opened Options
  import opened Arithmetic

  /** One enclosing counted loop. */
  datatype Loop = Loop(limit: int, index: int)

  /** How a statement ends: at its end, by `leave`, by leaving the definition, or by starting
      the body of the definition again with `tail-recurse`, `deep` counted loops being open. */
  datatype Outcome = Fell | Left | Returned | Restarted(deep: nat)

  /** `Wrong`: the source has no structured meaning here (stack underflow, `i` outside a
      loop, `exit` inside a counted loop). `Timeout`: the fuel of calls and loop iterations
      ran out. */
  datatype Res = Done(ds: seq<int>, how: Outcome) | Wrong | Timeout

  /** A macro body must be free of words that name or leave the enclosing definition. */
  predicate Copyable(c: Stmt) {
    match c
    case Skip => true
    case Seq(a, b) => Copyable(a) && Copyable(b)
    case Atom(w) => !w.WExit? && !w.WRecurse? && !w.WTailRecurse?
    case If(t) => Copyable(t)
    case IfElse(t, e) => Copyable(t) && Copyable(e)
    case Again(b) => Copyable(b)
    case Until(b) => Copyable(b)
    case While(t, b) => Copyable(t) && Copyable(b)
    case Case(arms) => CopyableArms(arms)
    case Do(_, b, _) => Copyable(b)
  }

  predicate CopyableArms(arms: Arms) {
    match arms
    case Default(d) => Copyable(d)
    case Arm(p, b, rest) => Copyable(p) && Copyable(b) && CopyableArms(rest)
  }

  /** What a caller sees of a body that has ended for good. A restart out of a loop leaves the
      loop's cells above the return address, so that the body no longer returns to it. */
  function AfterCall(r: Res): Res {
    if r.Done? then (if r.how == Fell || r.how == Returned then Done(r.ds, Fell) else Wrong) else r
  }

  /** Calling definition `d`: its body, and again for every `tail-recurse`. */
  function Enter(sem: Sem, defs: seq<Stmt>, f: nat, d: nat, ds: seq<int>): (e: Res)
    requires d < |defs|
    ensures e.Done? ==> e.how == Fell
    decreases f, d, defs[d], 2
  {
    var r := Eval(sem, defs, f, d, defs[d], ds, []);
    if !(r.Done? && r.how == Restarted(0)) then AfterCall(r)
    else if f == 0 then Timeout
    else Enter(sem, defs, f - 1, d, r.ds)
  }

  function Eval(sem: Sem, defs: seq<Stmt>, f: nat, self: nat, c: Stmt, ds: seq<int>, loops: seq<Loop>): Res
    decreases f, self, c, 1
  {
    match c
    case Skip => Done(ds, Fell)
    case Seq(a, b) =>
      var r := Eval(sem, defs, f, self, a, ds, loops);
      if r.Done? && r.how == Fell then Eval(sem, defs, f, self, b, r.ds, loops) else r
    case Atom(w) => EvalAtom(sem, defs, f, self, w, ds, loops)
    case If(t) =>
      if ds == [] then Wrong
      else if ds[0] != 0 then Eval(sem, defs, f, self, t, ds[1..], loops)
      else Done(ds[1..], Fell)
    case IfElse(t, e) =>
      if ds == [] then Wrong
      else Eval(sem, defs, f, self, if ds[0] != 0 then t else e, ds[1..], loops)
    case Again(b) =>
      var r := Eval(sem, defs, f, self, b, ds, loops);
      if !(r.Done? && r.how == Fell) then r
      else if f == 0 then Timeout
      else Eval(sem, defs, f - 1, self, c, r.ds, loops)
    case Until(b) =>
      var r := Eval(sem, defs, f, self, b, ds, loops);
      if !(r.Done? && r.how == Fell) then r
      else if r.ds == [] then Wrong
      else if r.ds[0] != 0 then Done(r.ds[1..], Fell)
      else if f == 0 then Timeout
      else Eval(sem, defs, f - 1, self, c, r.ds[1..], loops)
    case While(t, b) =>
      var r := Eval(sem, defs, f, self, t, ds, loops);
      if !(r.Done? && r.how == Fell) then r
      else if r.ds == [] then Wrong
      else if r.ds[0] == 0 then Done(r.ds[1..], Fell)
      else
        var r2 := Eval(sem, defs, f, self, b, r.ds[1..], loops);
        if !(r2.Done? && r2.how == Fell) then r2
        else if f == 0 then Timeout
        else Eval(sem, defs, f - 1, self, c, r2.ds, loops)
    case Case(arms) => EvalArms(sem, defs, f, self, arms, ds, loops)
    case Do(q, b, p) =>
      if |ds| < 2 then Wrong
      else if q && ds[0] == ds[1] then Done(ds[2..], Fell)
      else EvalDo(sem, defs, f, self, b, p, ds[2..], Loop(ds[1], ds[0]), loops)
  }

  function EvalAtom(sem: Sem, defs: seq<Stmt>, f: nat, self: nat, w: Word, ds: seq<int>, loops: seq<Loop>): Res
    decreases f, self, w, 0
  {
    match w
    case WPlain(id) =>
      var r := sem(id, ds);
      if r.Some? then Done(r.val, Fell) else Wrong
    case WLit(n) => Done([n] + ds, Fell)
    case WCall(d) =>
      if d >= |defs| then Wrong
      else if f == 0 then Timeout
      else Enter(sem, defs, f - 1, d, ds)
    case WMacro(d) =>
      // the body stands in the loops that surround the word
      if d < self && d < |defs| && Copyable(defs[d]) then Eval(sem, defs, f, d, defs[d], ds, loops)
      else Wrong
    case WRecurse =>
      if self >= |defs| then Wrong
      else if f == 0 then Timeout
      else Enter(sem, defs, f - 1, self, ds)
    case WTailRecurse => Done(ds, Restarted(|loops|))
    case WExit => if loops == [] then Done(ds, Returned) else Wrong
    case WI => if loops == [] then Wrong else Done([loops[0].index] + ds, Fell)
    case WJ => if |loops| < 2 then Wrong else Done([loops[1].index] + ds, Fell)
    case WLeave => if loops == [] then Wrong else Done(ds, Left)
    case _ => Wrong
  }

  /** The selector is below the value an arm's prefix leaves; a match drops both. */
  function EvalArms(sem: Sem, defs: seq<Stmt>, f: nat, self: nat, arms: Arms, ds: seq<int>, loops: seq<Loop>): Res
    decreases f, self, arms, 1
  {
    match arms
    case Default(d) =>
      var r := Eval(sem, defs, f, self, d, ds, loops);
      if !(r.Done? && r.how == Fell) then r
      else if r.ds == [] then Wrong
      else Done(r.ds[1..], Fell)
    case Arm(p, b, rest) =>
      var r := Eval(sem, defs, f, self, p, ds, loops);
      if !(r.Done? && r.how == Fell) then r
      else if |r.ds| < 2 then Wrong
      else if r.ds[1] == r.ds[0] then Eval(sem, defs, f, self, b, r.ds[2..], loops)
      else EvalArms(sem, defs, f, self, rest, r.ds[1..], loops)
  }

  /** What the end of a counted loop's body leads to: the end of the loop, or another turn. */
  datatype Turn = Ends(res: Res) | Next(ds: seq<int>, loop: Loop)

  function AfterTurn(r: Res, plus: bool, l: Loop): Turn {
    if !r.Done? then Ends(r)
    else if r.how == Returned then Ends(Wrong)
    else if r.how.Restarted? then Ends(r)
    else if r.how == Left then Ends(Done(r.ds, Fell))
    else if plus && r.ds == [] then Ends(Wrong)
    else
      var d := if plus then r.ds[0] else 1;
      var rest := if plus then r.ds[1..] else r.ds;
      var index := Wrap(l.index + d);
      if Continues(d, l.limit, index) then Next(rest, Loop(l.limit, index)) else Ends(Done(rest, Fell))
  }

  function EvalDo(sem: Sem, defs: seq<Stmt>, f: nat, self: nat, b: Stmt, plus: bool, ds: seq<int>,
                  l: Loop, loops: seq<Loop>): Res
    decreases f, self, b, 2
  {
    var t := AfterTurn(Eval(sem, defs, f, self, b, ds, [l] + loops), plus, l);
    if t.Ends? then t.res
    else if f == 0 then Timeout
    else EvalDo(sem, defs, f - 1, self, b, plus, t.ds, t.loop, loops)
  }
}
