/** Counted loops of definitions with exception handlers, in plain integers: which cells the
    loop takes as limit and start index, and which turn is its last. */
module HandlerLoops {
  import opened Options
  import opened Arithmetic
  import opened Exceptions
  import C = CountedLoops

  /** `y` is `x` with the value `v` on top of its stack, in memory cells: the top is cached. */
  ghost predicate Over(x: Data, v: int, y: Data) {
    0 <= y.sp < |y.pm| && y.tos == v && x == y.(tos := y.pm[y.sp], sp := y.sp + 1)
  }

  /** One turn from the index `index` and the data `x` to another with `x'`; for `+loop` the
      body leaves its step `d` on top of `x'`. */
  ghost predicate Another(w: Words, defs: seq<Def>, entry: seq<int>, f: nat, b: Stmt, plus: bool, limit: int,
                          index: int, d: int, x: Data, x': Data, loops: seq<Loop>)
  {
    && Leaves(w, defs, entry, f, b, plus, Loop(limit, index), d, x, x', loops)
    && C.MIN <= index + d <= C.MAX
    && (if d > 0 then index + d < limit else index + d > limit)
  }

  ghost predicate Leaves(w: Words, defs: seq<Def>, entry: seq<int>, f: nat, b: Stmt, plus: bool, l: Loop, d: int,
                         x: Data, x': Data, loops: seq<Loop>)
  {
    var r := Eval(w, defs, entry, f, b, x, [l] + loops);
    r.Done? && if plus then Over(x', d, r.x) else r.x == x' && d == 1
  }

  ghost predicate GoesOn(w: Words, defs: seq<Def>, entry: seq<int>, f: nat, b: Stmt, plus: bool, limit: int,
                         indexes: seq<int>, steps: seq<int>, datas: seq<Data>, loops: seq<Loop>)
  {
    && |indexes| == |datas| == |steps| + 1 && |steps| <= f
    && forall k {:trigger steps[k]} :: 0 <= k < |steps| ==>
         && Another(w, defs, entry, f - k, b, plus, limit, indexes[k], steps[k], datas[k], datas[k + 1], loops)
         && indexes[k + 1] == indexes[k] + steps[k]
  }

  lemma {:induction false} TurnEnds(w: Words, defs: seq<Def>, entry: seq<int>, f: nat, b: Stmt, plus: bool,
                                    limit: int, index: int, d: int, x: Data, x': Data, loops: seq<Loop>)
    requires Leaves(w, defs, entry, f, b, plus, Loop(limit, index), d, x, x', loops)
    requires C.MIN <= index + d <= C.MAX
    ensures EvalLoop(w, defs, entry, f, b, plus, Loop(limit, index), x, loops)
         == if !(if d > 0 then index + d < limit else index + d > limit) then Done(x')
            else if f == 0 then Timeout
            else EvalLoop(w, defs, entry, f - 1, b, plus, Loop(limit, index + d), x', loops)
  {
    hide Eval;
    C.NoWrap(index + d);
  }

  lemma {:induction false} TurnsPass(w: Words, defs: seq<Def>, entry: seq<int>, f: nat, b: Stmt, plus: bool,
                                     limit: int, indexes: seq<int>, steps: seq<int>, datas: seq<Data>,
                                     loops: seq<Loop>, k: nat)
    requires GoesOn(w, defs, entry, f, b, plus, limit, indexes, steps, datas, loops) && k <= |steps|
    ensures EvalLoop(w, defs, entry, f, b, plus, Loop(limit, indexes[0]), datas[0], loops)
         == EvalLoop(w, defs, entry, f - k, b, plus, Loop(limit, indexes[k]), datas[k], loops)
    decreases k
  {
    hide Eval, EvalLoop, Leaves;
    if k > 0 {
      TurnsPass(w, defs, entry, f, b, plus, limit, indexes, steps, datas, loops, k - 1);
      TurnEnds(w, defs, entry, f - (k - 1), b, plus, limit, indexes[k - 1], steps[k - 1], datas[k - 1], datas[k],
               loops);
    }
  }

  /** `x` has the start index on top, the limit below it, and `rest` under both. */
  ghost predicate Bounds(x: Data, start: int, limit: int, rest: Data) {
    && 0 <= x.sp && x.sp + 1 < |x.pm| && x.tos == start && x.pm[x.sp] == limit
    && rest == x.(tos := x.pm[x.sp + 1], sp := x.sp + 2)
  }

  lemma {:induction false} LoopStarts(w: Words, defs: seq<Def>, entry: seq<int>, f: nat, b: Stmt, plus: bool,
                                      x: Data, start: int, limit: int, rest: Data, loops: seq<Loop>)
    requires Bounds(x, start, limit, rest)
    ensures Eval(w, defs, entry, f, Do(b, plus), x, loops)
         == EvalLoop(w, defs, entry, f, b, plus, Loop(limit, start), rest, loops)
  {
    hide EvalLoop;
  }

  /** The loop takes the start index from the top of the stack and the limit from the cell
      below it, and ends with the first step that brings the index to the limit or past it. */
  lemma {:induction false} LoopEnds(w: Words, defs: seq<Def>, entry: seq<int>, f: nat, b: Stmt, plus: bool,
                                    limit: int, indexes: seq<int>, steps: seq<int>, datas: seq<Data>, x: Data,
                                    d: int, last: Data, loops: seq<Loop>)
    requires GoesOn(w, defs, entry, f, b, plus, limit, indexes, steps, datas, loops)
    requires Bounds(x, indexes[0], limit, datas[0])
    requires var t := |steps|;
             && Leaves(w, defs, entry, f - t, b, plus, Loop(limit, indexes[t]), d, datas[t], last, loops)
             && C.MIN <= indexes[t] + d <= C.MAX
             && if d > 0 then indexes[t] + d >= limit else indexes[t] + d <= limit
    ensures Eval(w, defs, entry, f, Do(b, plus), x, loops) == Done(last)
  {
    hide Eval, EvalLoop, Leaves;
    var t := |steps|;
    LoopStarts(w, defs, entry, f, b, plus, x, indexes[0], limit, datas[0], loops);
    TurnsPass(w, defs, entry, f, b, plus, limit, indexes, steps, datas, loops, t);
    TurnEnds(w, defs, entry, f - t, b, plus, limit, indexes[t], d, datas[t], last, loops);
  }

  /** `leave` ends the loop in the middle of any turn, and so does a raise, which goes on to
      the handler around the loop. */
  lemma {:induction false} LeaveOrRaise(w: Words, defs: seq<Def>, entry: seq<int>, f: nat, b: Stmt, plus: bool,
                                        limit: int, indexes: seq<int>, steps: seq<int>, datas: seq<Data>, x: Data,
                                        loops: seq<Loop>)
    requires GoesOn(w, defs, entry, f, b, plus, limit, indexes, steps, datas, loops)
    requires Bounds(x, indexes[0], limit, datas[0])
    ensures var t := |steps|;
            var r := Eval(w, defs, entry, f - t, b, datas[t], [Loop(limit, indexes[t])] + loops);
            var e := Eval(w, defs, entry, f, Do(b, plus), x, loops);
            (r.Left? ==> e == Done(r.x)) && (r.Raised? ==> e == r)
  {
    hide Eval;
    LoopStarts(w, defs, entry, f, b, plus, x, indexes[0], limit, datas[0], loops);
    TurnsPass(w, defs, entry, f, b, plus, limit, indexes, steps, datas, loops, |steps|);
  }

  // ----- the other control words -----

  /** `if … else … then`, `until`, `i`, `j` and `raise` on the cells of the stack: a flag that is
      not zero takes the first branch and ends an `until`; the innermost index is `i`. */
  lemma {:induction false} FlagsAndIndexes(w: Words, defs: seq<Def>, entry: seq<int>, f: nat, t: Stmt, e: Stmt,
                                           v: int, x: Data, y: Data, z: Data, inner: Loop, outer: Loop,
                                           loops: seq<Loop>)
    requires Over(x, v, y)
    ensures Eval(w, defs, entry, f, IfElse(t, e), y, loops)
         == Eval(w, defs, entry, f, if v != 0 then t else e, x, loops)
    ensures Eval(w, defs, entry, f, t, z, loops) == Done(y) && v != 0 ==>
              Eval(w, defs, entry, f, Until(t), z, loops) == Done(x)
    ensures Eval(w, defs, entry, f, t, z, loops) == Done(y) && v == 0 && f > 0 ==>
              Eval(w, defs, entry, f, Until(t), z, loops) == Eval(w, defs, entry, f - 1, Until(t), x, loops)
    ensures inner.index == v ==> Eval(w, defs, entry, f, Index(false), x, [inner, outer] + loops) == Done(Pushed(x, v))
    ensures outer.index == v ==> Eval(w, defs, entry, f, Index(true), x, [inner, outer] + loops) == Done(Pushed(x, v))
    ensures Eval(w, defs, entry, f, Raise, y, loops) == Raised(v, x)
  {
    assert ([inner, outer] + loops)[0] == inner && ([inner, outer] + loops)[1] == outer;
  }

  /** The old top goes to the next cell of memory. */
  function Pushed(x: Data, v: int): Data
    requires 0 < x.sp <= |x.pm|
  {
    Data(v, x.sp - 1, x.pm[x.sp - 1 := x.tos], x.fp)
  }
}
