/** Counted loops of framed definitions, in plain integers: the law of `do`, `loop`, `+loop`
    and `leave` between operands and locals, and what a loop over `i` leaves in memory. */
module FrameLoops {
  import opened Options
  import opened Arithmetic
  import opened ThreadedCode
  import opened Structured
  import opened Frames
  import C = CountedLoops

  /** One turn from the index `index` to another, operands and locals going from `ds` and
      `vars` to `ds'` and `vars'`; for `+loop` the body leaves its step `d` over `ds'`. */
  ghost predicate Another(sem: Sem, defs: seq<FDef>, f: nat, self: nat, b: FStmt, plus: bool, limit: int,
                          index: int, d: int, ds: seq<int>, ds': seq<int>, vars: seq<Opt<int>>,
                          vars': seq<Opt<int>>, loops: seq<Loop>)
    requires self < |defs|
  {
    && FEval(sem, defs, f, self, b, ds, vars, [Loop(limit, index)] + loops)
       == FDone((if plus then [d] else []) + ds', vars', HFell)
    && (plus || d == 1)
    && C.MIN <= index + d <= C.MAX
    && (if d > 0 then index + d < limit else index + d > limit)
  }

  ghost predicate GoesOn(sem: Sem, defs: seq<FDef>, f: nat, self: nat, b: FStmt, plus: bool, limit: int,
                         indexes: seq<int>, steps: seq<int>, stacks: seq<seq<int>>, locals: seq<seq<Opt<int>>>,
                         loops: seq<Loop>)
    requires self < |defs|
  {
    && |indexes| == |stacks| == |locals| == |steps| + 1 && |steps| <= f
    && forall k {:trigger steps[k]} :: 0 <= k < |steps| ==>
         && Another(sem, defs, f - k, self, b, plus, limit, indexes[k], steps[k], stacks[k], stacks[k + 1],
                    locals[k], locals[k + 1], loops)
         && indexes[k + 1] == indexes[k] + steps[k]
  }

  lemma {:induction false} TurnEnds(sem: Sem, defs: seq<FDef>, f: nat, self: nat, b: FStmt, plus: bool, limit: int,
                                    index: int, d: int, ds: seq<int>, ds': seq<int>, vars: seq<Opt<int>>,
                                    vars': seq<Opt<int>>, loops: seq<Loop>)
    requires self < |defs|
    requires FEval(sem, defs, f, self, b, ds, vars, [Loop(limit, index)] + loops)
          == FDone((if plus then [d] else []) + ds', vars', HFell)
    requires (plus || d == 1) && C.MIN <= index + d <= C.MAX
    ensures FLoop(sem, defs, f, self, b, plus, Loop(limit, index), ds, vars, loops)
         == if !(if d > 0 then index + d < limit else index + d > limit) then FDone(ds', vars', HFell)
            else if f == 0 then FTimeout
            else FLoop(sem, defs, f - 1, self, b, plus, Loop(limit, index + d), ds', vars', loops)
  {
    hide FEval;
    C.NoWrap(index + d);
    assert ([d] + ds')[1..] == ds';
    assert [] + ds' == ds';
  }

  lemma {:induction false} TurnsPass(sem: Sem, defs: seq<FDef>, f: nat, self: nat, b: FStmt, plus: bool, limit: int,
                                     indexes: seq<int>, steps: seq<int>, stacks: seq<seq<int>>,
                                     locals: seq<seq<Opt<int>>>, loops: seq<Loop>, k: nat)
    requires self < |defs| && k <= |steps|
    requires GoesOn(sem, defs, f, self, b, plus, limit, indexes, steps, stacks, locals, loops)
    ensures FLoop(sem, defs, f, self, b, plus, Loop(limit, indexes[0]), stacks[0], locals[0], loops)
         == FLoop(sem, defs, f - k, self, b, plus, Loop(limit, indexes[k]), stacks[k], locals[k], loops)
    decreases k
  {
    hide FEval, FLoop;
    if k > 0 {
      TurnsPass(sem, defs, f, self, b, plus, limit, indexes, steps, stacks, locals, loops, k - 1);
      var d := steps[k - 1];
      TurnEnds(sem, defs, f - (k - 1), self, b, plus, limit, indexes[k - 1], d, stacks[k - 1], stacks[k],
               locals[k - 1], locals[k], loops);
    }
  }

  lemma {:induction false} LoopStarts(sem: Sem, defs: seq<FDef>, f: nat, self: nat, b: FStmt, plus: bool,
                                      start: int, limit: int, ds: seq<int>, vars: seq<Opt<int>>, loops: seq<Loop>)
    requires self < |defs|
    ensures FEval(sem, defs, f, self, FDo(b, plus), [start, limit] + ds, vars, loops)
         == FLoop(sem, defs, f, self, b, plus, Loop(limit, start), ds, vars, loops)
  {
    hide FLoop;
    assert ([start, limit] + ds)[2..] == ds;
  }

  /** The loop takes the start index from the top of the operands and the limit from below it,
      and ends with the first step that brings the index to the limit or past it. */
  lemma {:induction false} LoopEnds(sem: Sem, defs: seq<FDef>, f: nat, self: nat, b: FStmt, plus: bool, limit: int,
                                    indexes: seq<int>, steps: seq<int>, stacks: seq<seq<int>>,
                                    locals: seq<seq<Opt<int>>>, d: int, last: seq<int>, vars: seq<Opt<int>>,
                                    loops: seq<Loop>)
    requires self < |defs| && GoesOn(sem, defs, f, self, b, plus, limit, indexes, steps, stacks, locals, loops)
    requires var t := |steps|;
             && FEval(sem, defs, f - t, self, b, stacks[t], locals[t], [Loop(limit, indexes[t])] + loops)
                == FDone((if plus then [d] else []) + last, vars, HFell)
             && (plus || d == 1)
             && C.MIN <= indexes[t] + d <= C.MAX
             && if d > 0 then indexes[t] + d >= limit else indexes[t] + d <= limit
    ensures FEval(sem, defs, f, self, FDo(b, plus), [indexes[0], limit] + stacks[0], locals[0], loops)
         == FDone(last, vars, HFell)
  {
    hide FEval, FLoop;
    var t := |steps|;
    LoopStarts(sem, defs, f, self, b, plus, indexes[0], limit, stacks[0], locals[0], loops);
    TurnsPass(sem, defs, f, self, b, plus, limit, indexes, steps, stacks, locals, loops, t);
    TurnEnds(sem, defs, f - t, self, b, plus, limit, indexes[t], d, stacks[t], last, locals[t], vars, loops);
  }

  /** `leave` ends the loop in the middle of any turn. */
  lemma {:induction false} LeaveEnds(sem: Sem, defs: seq<FDef>, f: nat, self: nat, b: FStmt, plus: bool, limit: int,
                                     indexes: seq<int>, steps: seq<int>, stacks: seq<seq<int>>,
                                     locals: seq<seq<Opt<int>>>, last: seq<int>, vars: seq<Opt<int>>,
                                     loops: seq<Loop>)
    requires self < |defs| && GoesOn(sem, defs, f, self, b, plus, limit, indexes, steps, stacks, locals, loops)
    requires var t := |steps|;
             FEval(sem, defs, f - t, self, b, stacks[t], locals[t], [Loop(limit, indexes[t])] + loops)
             == FDone(last, vars, HLeft)
    ensures FEval(sem, defs, f, self, FDo(b, plus), [indexes[0], limit] + stacks[0], locals[0], loops)
         == FDone(last, vars, HFell)
  {
    hide FEval;
    LoopStarts(sem, defs, f, self, b, plus, indexes[0], limit, stacks[0], locals[0], loops);
    TurnsPass(sem, defs, f, self, b, plus, limit, indexes, steps, stacks, locals, loops, |steps|);
  }

  /** `begin … while … repeat` goes on while the flag is not zero. */
  lemma {:induction false} WhileEnds(sem: Sem, defs: seq<FDef>, f: nat, self: nat, c: FStmt, b: FStmt,
                                     stacks: seq<seq<int>>, locals: seq<seq<Opt<int>>>, flags: seq<int>,
                                     mids: seq<seq<int>>, tested: seq<seq<Opt<int>>>, last: seq<int>,
                                     vars: seq<Opt<int>>, loops: seq<Loop>)
    requires self < |defs| && |stacks| == |locals| == |flags| + 1 == |mids| + 1 == |tested| + 1 && |flags| <= f
    requires forall k {:trigger flags[k]} :: 0 <= k < |flags| ==>
               && FEval(sem, defs, f - k, self, c, stacks[k], locals[k], loops)
                  == FDone([flags[k]] + mids[k], tested[k], HFell)
               && flags[k] != 0
               && FEval(sem, defs, f - k, self, b, mids[k], tested[k], loops)
                  == FDone(stacks[k + 1], locals[k + 1], HFell)
    requires var t := |flags|;
             FEval(sem, defs, f - t, self, c, stacks[t], locals[t], loops) == FDone([0] + last, vars, HFell)
    ensures FEval(sem, defs, f, self, FWhile(c, b), stacks[0], locals[0], loops) == FDone(last, vars, HFell)
  {
    hide FEval;
    var t := |flags|;
    for k := 0 to t
      invariant FEval(sem, defs, f, self, FWhile(c, b), stacks[0], locals[0], loops)
             == FEval(sem, defs, f - k, self, FWhile(c, b), stacks[k], locals[k], loops)
    {
      WhileTurn(sem, defs, f - k, self, c, b, stacks[k], locals[k], flags[k], mids[k], tested[k],
                stacks[k + 1], locals[k + 1], loops);
    }
    WhileTurn(sem, defs, f - t, self, c, b, stacks[t], locals[t], 0, last, vars, [], [], loops);
  }

  lemma {:induction false} WhileTurn(sem: Sem, defs: seq<FDef>, f: nat, self: nat, c: FStmt, b: FStmt, ds: seq<int>,
                                     vars: seq<Opt<int>>, flag: int, mid: seq<int>, tested: seq<Opt<int>>,
                                     ds': seq<int>, vars': seq<Opt<int>>, loops: seq<Loop>)
    requires self < |defs|
    requires FEval(sem, defs, f, self, c, ds, vars, loops) == FDone([flag] + mid, tested, HFell)
    requires flag != 0 ==> FEval(sem, defs, f, self, b, mid, tested, loops) == FDone(ds', vars', HFell)
    ensures FEval(sem, defs, f, self, FWhile(c, b), ds, vars, loops)
         == if flag == 0 then FDone(mid, tested, HFell) else if f == 0 then FTimeout
            else FEval(sem, defs, f - 1, self, FWhile(c, b), ds', vars', loops)
  {
    assert ([flag] + mid)[1..] == mid;
  }

  /** `i` and `j` in two loops. */
  lemma {:induction false} TwoIndexes(sem: Sem, defs: seq<FDef>, f: nat, self: nat, inner: Loop, outer: Loop,
                                      ds: seq<int>, vars: seq<Opt<int>>, loops: seq<Loop>)
    requires self < |defs|
    ensures FEval(sem, defs, f, self, FSeq(FIndex(false), FIndex(true)), ds, vars, [inner, outer] + loops)
         == FDone([outer.index, inner.index] + ds, vars, HFell)
  {
    var all := [inner, outer] + loops;
    assert FEval(sem, defs, f, self, FIndex(false), ds, vars, all) == FDone([inner.index] + ds, vars, HFell);
    assert FEval(sem, defs, f, self, FIndex(true), [inner.index] + ds, vars, all)
        == FDone([outer.index] + ([inner.index] + ds), vars, HFell);
    assert [outer.index] + ([inner.index] + ds) == [outer.index, inner.index] + ds;
  }

  // ----- the indices a framed loop sees -----

  /** `i n`, the body of `do i n +loop` */
  function Body(n: int): FStmt { FSeq(FIndex(false), FLit(n)) }

  lemma {:induction false} BodyPushes(sem: Sem, defs: seq<FDef>, f: nat, self: nat, n: int, ds: seq<int>,
                                      vars: seq<Opt<int>>, l: Loop, loops: seq<Loop>)
    requires self < |defs|
    ensures FEval(sem, defs, f, self, Body(n), ds, vars, [l] + loops) == FDone([n] + ([l.index] + ds), vars, HFell)
  {
    assert ([l] + loops)[0] == l;
    assert FEval(sem, defs, f, self, FIndex(false), ds, vars, [l] + loops) == FDone([l.index] + ds, vars, HFell);
    assert FEval(sem, defs, f, self, FLit(n), [l.index] + ds, vars, [l] + loops)
        == FDone([n] + ([l.index] + ds), vars, HFell);
  }

  lemma {:induction false} AllTurns(sem: Sem, defs: seq<FDef>, f: nat, self: nat, start: int, limit: int,
                                    n: int, t: nat, ds: seq<int>, vars: seq<Opt<int>>, loops: seq<Loop>)
    returns (indexes: seq<int>, steps: seq<int>, stacks: seq<seq<int>>, locals: seq<seq<Opt<int>>>)
    requires self < |defs| && C.MIN <= start <= C.MAX && C.MIN <= start + t * n <= C.MAX && 1 <= t <= f + 1
    requires forall k :: 1 <= k < t ==> if n > 0 then start + k * n < limit else start + k * n > limit
    ensures GoesOn(sem, defs, f, self, Body(n), true, limit, indexes, steps, stacks, locals, loops)
    ensures |indexes| == |stacks| == |locals| == t && |steps| == t - 1
    ensures indexes[0] == start && stacks[0] == ds && locals[0] == locals[t - 1] == vars
    ensures indexes[t - 1] == start + (t - 1) * n && stacks[t - 1] == C.Indexes(start, n, t - 1) + ds
  {
    hide FEval, C.Indexes;
    indexes, steps, stacks := C.Turning(start, n, t, ds);
    locals := seq(t, k => vars);
    forall k {:trigger steps[k]} | 0 <= k < |steps|
      ensures Another(sem, defs, f - k, self, Body(n), true, limit, indexes[k], steps[k], stacks[k], stacks[k + 1],
                      locals[k], locals[k + 1], loops)
      ensures indexes[k + 1] == indexes[k] + steps[k]
    {
      BodyPushes(sem, defs, f - k, self, n, stacks[k], vars, Loop(limit, indexes[k]), loops);
      C.IndexesGrow(start, n, k, ds);
      C.Between(start, n, k, t);
      C.Between(start, n, k + 1, t);
    }
  }

  /** Where no index wraps, `do i n +loop` leaves exactly start, start + n, … as operands and
      the locals as they were. */
  lemma {:induction false} CountsBy(sem: Sem, defs: seq<FDef>, f: nat, self: nat, start: int, limit: int,
                                    n: int, ds: seq<int>, vars: seq<Opt<int>>, loops: seq<Loop>)
    requires self < |defs| && n != 0
    requires C.MIN <= start <= C.MAX && C.MIN <= start + C.Turns(start, limit, n) * n <= C.MAX
    requires f + 1 >= C.Turns(start, limit, n)
    ensures FEval(sem, defs, f, self, FDo(Body(n), true), [start, limit] + ds, vars, loops)
         == FDone(C.Indexes(start, n, C.Turns(start, limit, n)) + ds, vars, HFell)
  {
    hide FEval, C.Indexes, C.Turns, GoesOn;
    var t := C.Turns(start, limit, n);
    var indexes, steps, stacks, locals := AllTurns(sem, defs, f, self, start, limit, n, t, ds, vars, loops);
    BodyPushes(sem, defs, f - (t - 1), self, n, stacks[t - 1], vars, Loop(limit, indexes[t - 1]), loops);
    C.IndexesGrow(start, n, t - 1, ds);
    C.Between(start, n, t - 1, t);
    LoopEnds(sem, defs, f, self, Body(n), true, limit, indexes, steps, stacks, locals, n,
             C.Indexes(start, n, t) + ds, vars, loops);
  }

  /** `{ limit start } limit start do i n +loop` */
  function Counter(n: int): FDef { FDef(2, 0, FSeq(FSeq(FGet(1), FGet(2)), FDo(Body(n), true))) }

  lemma {:induction false} CounterApplies(sem: Sem, defs: seq<FDef>, f: nat, self: nat, start: int, limit: int, n: int)
    requires self < |defs| && n != 0 && defs[self] == Counter(n)
    requires C.MIN <= start <= C.MAX && C.MIN <= start + C.Turns(start, limit, n) * n <= C.MAX
    requires f + 1 >= C.Turns(start, limit, n)
    ensures Apply(sem, defs, f, self, [start, limit])
         == DDone(C.Indexes(start, n, C.Turns(start, limit, n)))
  {
    hide C.Indexes, C.Turns;
    var vars := Initial([start, limit], 0);
    assert vars[0] == Some(limit) && vars[1] == Some(start);
    assert FEval(sem, defs, f, self, FGet(1), [], vars, []) == FDone([limit] + [], vars, HFell);
    assert FEval(sem, defs, f, self, FGet(2), [limit], vars, []) == FDone([start] + [limit], vars, HFell);
    assert [limit] + [] == [limit];
    assert [start] + [limit] == [start, limit] + [];
    assert FEval(sem, defs, f, self, FSeq(FGet(1), FGet(2)), [], vars, []) == FDone([start, limit] + [], vars, HFell);
    CountsBy(sem, defs, f, self, start, limit, n, [], vars, []);
    var r := C.Indexes(start, n, C.Turns(start, limit, n));
    assert r + [] == r;
  }

  /** The same in memory: the indices stand over what was under the arguments, and frame
      pointer and return stack are the caller's, unless the memory is too small. */
  lemma {:induction false} MachineCountsBy(sem: Sem, defs: seq<FDef>, f: nat, self: nat, s: FState, start: int,
                                           limit: int, n: int, under: seq<int>)
    requires self < |defs| && n != 0 && defs[self] == Counter(n) && Local(sem)
    requires Sane(s) && Ds(s) == [start, limit] + under && under != []
    requires C.MIN <= start <= C.MAX && C.MIN <= start + C.Turns(start, limit, n) * n <= C.MAX
    requires f + 1 >= C.Turns(start, limit, n)
    ensures var x := ExecDef(sem, defs, f, self, s);
            || x.XOverflow?
            || (x.XGone? && Sane(x.s) && x.s.fp == s.fp && x.s.rs == s.rs && |x.s.pm| == |s.pm|
                && Ds(x.s) == C.Indexes(start, n, C.Turns(start, limit, n)) + under)
  {
    hide Apply, ExecDef, C.Indexes, C.Turns, Local;
    CounterApplies(sem, defs, f, self, start, limit, n);
    FrameDiscipline(sem, defs, f, self, s, [start, limit], under);
  }
}
