/** What the uncounted control words mean for any bodies: which way a flag sends each of them,
    which arm of a `case` is taken, and which loop `j` looks at. Together with compiler
    correctness this is what compiled code does. */
module ControlLaws {
  import opened ControlSyntax
  import opened ThreadedCode
  import opened Options
  import opened Structured
  import C = CountedLoops

  /** `begin … until` ends with the first flag that is not zero, and drops every flag. */
  lemma {:induction false} UntilEnds(sem: Sem, defs: seq<Stmt>, f: nat, self: nat, b: Stmt, stacks: seq<seq<int>>,
                                     flag: int, last: seq<int>, loops: seq<Loop>)
    requires stacks != [] && |stacks| <= f + 1 && flag != 0
    requires forall k {:trigger stacks[k]} :: 0 <= k < |stacks| - 1 ==>
               Eval(sem, defs, f - k, self, b, stacks[k], loops) == Done([0] + stacks[k + 1], Fell)
    requires var t := |stacks| - 1; Eval(sem, defs, f - t, self, b, stacks[t], loops) == Done([flag] + last, Fell)
    ensures Eval(sem, defs, f, self, Until(b), stacks[0], loops) == Done(last, Fell)
  {
    hide Eval;
    var t := |stacks| - 1;
    for k := 0 to t
      invariant Eval(sem, defs, f, self, Until(b), stacks[0], loops)
             == Eval(sem, defs, f - k, self, Until(b), stacks[k], loops)
    {
      UntilTurn(sem, defs, f - k, self, b, stacks[k], 0, stacks[k + 1], loops);
    }
    UntilTurn(sem, defs, f - t, self, b, stacks[t], flag, last, loops);
  }

  lemma {:induction false} UntilTurn(sem: Sem, defs: seq<Stmt>, f: nat, self: nat, b: Stmt, ds: seq<int>, flag: int,
                                     mid: seq<int>, loops: seq<Loop>)
    requires Eval(sem, defs, f, self, b, ds, loops) == Done([flag] + mid, Fell)
    ensures Eval(sem, defs, f, self, Until(b), ds, loops)
         == if flag != 0 then Done(mid, Fell) else if f == 0 then Timeout
            else Eval(sem, defs, f - 1, self, Until(b), mid, loops)
  {
    assert ([flag] + mid)[1..] == mid;
  }

  /** The test leaves a flag that is not zero, and the body goes on from what is under it. */
  ghost predicate Repeats(sem: Sem, defs: seq<Stmt>, f: nat, self: nat, c: Stmt, b: Stmt, ds: seq<int>, flag: int,
                          mid: seq<int>, ds': seq<int>, loops: seq<Loop>)
  {
    && Eval(sem, defs, f, self, c, ds, loops) == Done([flag] + mid, Fell)
    && flag != 0
    && Eval(sem, defs, f, self, b, mid, loops) == Done(ds', Fell)
  }

  /** `begin … while … repeat` goes on while the flag is not zero. */
  lemma {:induction false} WhileEnds(sem: Sem, defs: seq<Stmt>, f: nat, self: nat, c: Stmt, b: Stmt,
                                     stacks: seq<seq<int>>, flags: seq<int>, mids: seq<seq<int>>, last: seq<int>,
                                     loops: seq<Loop>)
    requires |stacks| == |flags| + 1 == |mids| + 1 && |stacks| <= f + 1
    requires forall k {:trigger flags[k]} :: 0 <= k < |flags| ==>
               Repeats(sem, defs, f - k, self, c, b, stacks[k], flags[k], mids[k], stacks[k + 1], loops)
    requires var t := |flags|; Eval(sem, defs, f - t, self, c, stacks[t], loops) == Done([0] + last, Fell)
    ensures Eval(sem, defs, f, self, While(c, b), stacks[0], loops) == Done(last, Fell)
  {
    hide Eval;
    var t := |flags|;
    for k := 0 to t
      invariant Eval(sem, defs, f, self, While(c, b), stacks[0], loops)
             == Eval(sem, defs, f - k, self, While(c, b), stacks[k], loops)
    {
      var flag := flags[k];
      WhileTurn(sem, defs, f - k, self, c, b, stacks[k], flag, mids[k], stacks[k + 1], loops);
    }
    WhileTurn(sem, defs, f - t, self, c, b, stacks[t], 0, last, [], loops);
  }

  lemma {:induction false} WhileTurn(sem: Sem, defs: seq<Stmt>, f: nat, self: nat, c: Stmt, b: Stmt, ds: seq<int>,
                                     flag: int, mid: seq<int>, ds': seq<int>, loops: seq<Loop>)
    requires Eval(sem, defs, f, self, c, ds, loops) == Done([flag] + mid, Fell)
    requires flag != 0 ==> Eval(sem, defs, f, self, b, mid, loops) == Done(ds', Fell)
    ensures Eval(sem, defs, f, self, While(c, b), ds, loops)
         == if flag == 0 then Done(mid, Fell) else if f == 0 then Timeout
            else Eval(sem, defs, f - 1, self, While(c, b), ds', loops)
  {
    assert ([flag] + mid)[1..] == mid;
  }

  // ----- case -----

  /** `keys[0] of bodies[0] endof …`, and the default part. */
  function Select(keys: seq<int>, bodies: seq<Stmt>, dflt: Stmt): Arms
    requires |keys| == |bodies|
  {
    if keys == [] then Default(dflt) else Arm(Atom(WLit(keys[0])), bodies[0], Select(keys[1..], bodies[1..], dflt))
  }

  /** `case` runs the arm of the first key that equals the selector, without the selector; when
      no key does, the default part, which has it on top, and `endcase` drops the top. */
  lemma {:induction false} CaseTakesFirst(sem: Sem, defs: seq<Stmt>, f: nat, self: nat, keys: seq<int>,
                                          bodies: seq<Stmt>, dflt: Stmt, x: int, ds: seq<int>, loops: seq<Loop>)
    requires |keys| == |bodies|
    ensures forall k :: 0 <= k < |keys| && keys[k] == x && x !in keys[..k] ==>
              Eval(sem, defs, f, self, Case(Select(keys, bodies, dflt)), [x] + ds, loops)
              == Eval(sem, defs, f, self, bodies[k], ds, loops)
    ensures x !in keys && Eval(sem, defs, f, self, dflt, [x] + ds, loops).Done? ==>
              var r := Eval(sem, defs, f, self, dflt, [x] + ds, loops);
              r.how == Fell && r.ds != [] ==>
                Eval(sem, defs, f, self, Case(Select(keys, bodies, dflt)), [x] + ds, loops) == Done(r.ds[1..], Fell)
    decreases |keys|
  {
    assert Eval(sem, defs, f, self, Case(Select(keys, bodies, dflt)), [x] + ds, loops)
        == EvalArms(sem, defs, f, self, Select(keys, bodies, dflt), [x] + ds, loops);
    if keys != [] {
      CaseTakesFirst(sem, defs, f, self, keys[1..], bodies[1..], dflt, x, ds, loops);
      ArmTaken(sem, defs, f, self, keys[0], bodies[0], Select(keys[1..], bodies[1..], dflt), x, ds, loops);
      hide Eval, EvalArms;
      forall k | 0 <= k < |keys| && keys[k] == x && x !in keys[..k]
        ensures Eval(sem, defs, f, self, Case(Select(keys, bodies, dflt)), [x] + ds, loops)
             == Eval(sem, defs, f, self, bodies[k], ds, loops)
      {
        if k > 0 {
          assert keys[0] in keys[..k];
          assert keys[..k][1..] == keys[1..][..k - 1];
          assert keys[1..][k - 1] == x && bodies[1..][k - 1] == bodies[k];
        }
      }
      if x !in keys { assert keys[0] != x && x !in keys[1..]; }
    }
  }

  lemma {:induction false} ArmTaken(sem: Sem, defs: seq<Stmt>, f: nat, self: nat, key: int, b: Stmt, rest: Arms,
                                    x: int, ds: seq<int>, loops: seq<Loop>)
    ensures EvalArms(sem, defs, f, self, Arm(Atom(WLit(key)), b, rest), [x] + ds, loops)
         == if key == x then Eval(sem, defs, f, self, b, ds, loops)
            else Eval(sem, defs, f, self, Case(rest), [x] + ds, loops)
  {
    assert Eval(sem, defs, f, self, Atom(WLit(key)), [x] + ds, loops) == Done([key] + ([x] + ds), Fell);
    assert ([key] + ([x] + ds))[1..] == [x] + ds;
    assert ([key] + ([x] + ds))[2..] == ds;
  }

  // ----- the outer index -----

  /** `do 1 0 do j loop loop`: the inner loop runs once and `j` is the index of the outer one,
      whatever the inner bounds. */
  lemma {:induction false} OuterIndex(sem: Sem, defs: seq<Stmt>, f: nat, self: nat, x: int, y: int, ds: seq<int>,
                                      loops: seq<Loop>)
    requires C.MIN <= x < C.MAX && C.MIN <= y < C.MAX
    ensures var inner := Seq(Atom(WLit(y + 1)), Seq(Atom(WLit(y)), Do(false, Atom(WJ), false)));
            Eval(sem, defs, f, self, Do(false, inner, false), [x, x + 1] + ds, loops) == Done([x] + ds, Fell)
  {
    var inner := Seq(Atom(WLit(y + 1)), Seq(Atom(WLit(y)), Do(false, Atom(WJ), false)));
    var outer := [Loop(x + 1, x)] + loops;
    InnerPushes(sem, defs, f, self, x, y, ds, loops);
    hide Eval;
    assert [] + ([x] + ds) == [x] + ds;
    C.LoopEnds(sem, defs, f, self, false, inner, false, x + 1, [x], [], [ds], 1, [x] + ds, loops);
    assert [x, x + 1] + ds == [[x][0], x + 1] + ds;
  }

  lemma {:induction false} InnerPushes(sem: Sem, defs: seq<Stmt>, f: nat, self: nat, x: int, y: int, ds: seq<int>,
                                       loops: seq<Loop>)
    requires C.MIN <= y < C.MAX
    ensures var inner := Seq(Atom(WLit(y + 1)), Seq(Atom(WLit(y)), Do(false, Atom(WJ), false)));
            Eval(sem, defs, f, self, inner, ds, [Loop(x + 1, x)] + loops) == Done([x] + ds, Fell)
  {
    var outer := [Loop(x + 1, x)] + loops;
    var both := [Loop(y + 1, y)] + outer;
    assert both[1] == Loop(x + 1, x);
    assert Eval(sem, defs, f, self, Atom(WJ), ds, both) == Done([x] + ds, Fell);
    assert [] + ([x] + ds) == [x] + ds;
    C.LoopEnds(sem, defs, f, self, false, Atom(WJ), false, y + 1, [y], [], [ds], 1, [x] + ds, outer);
    var loop := Do(false, Atom(WJ), false);
    assert [y] + ([y + 1] + ds) == [y, y + 1] + ds;
    assert Eval(sem, defs, f, self, Atom(WLit(y)), [y + 1] + ds, outer) == Done([y] + ([y + 1] + ds), Fell);
    assert Eval(sem, defs, f, self, Seq(Atom(WLit(y)), loop), [y + 1] + ds, outer) == Done([x] + ds, Fell);
    assert Eval(sem, defs, f, self, Atom(WLit(y + 1)), ds, outer) == Done([y + 1] + ds, Fell);
  }
}
