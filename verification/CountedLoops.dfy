/** How often counted loops run, in plain integers: the laws of `do`, `?do`, `loop`, `+loop`
    and `leave` for the meaning of source, for compiled code, for framed definitions and for
    definitions with exception handlers. */
module CountedLoops {
  import opened ControlSyntax
  import opened ThreadedCode
  import opened Options
  import opened Arithmetic
  import opened Structured
  import opened Programs
  import F = Frames
  import E = Exceptions

  const MIN: int := -0x8000_0000
  const MAX: int := 0x7fff_ffff

  /** The turns of a loop that moves its index from `start` by `n`: one, and then as many as
      begin below `limit` on the way up, or above it on the way down. */
  function Turns(start: int, limit: int, n: int): (t: nat)
    requires n != 0
    ensures t >= 1
    ensures n > 0 ==> start + t * n >= limit && (forall k :: 1 <= k < t ==> start + k * n < limit)
    ensures n < 0 ==> start + t * n <= limit && (forall k :: 1 <= k < t ==> start + k * n > limit)
  {
    var gap, step := if n > 0 then limit - start else start - limit, Abs(n);
    var t := if gap <= step then 1 else (gap - 1) / step + 1;
    Quotient(gap, step);
    assert forall k :: 1 <= k < t ==> k * step < gap by {
      forall k | 1 <= k < t ensures k * step < gap { Products(k, t - 1, step); }
    }
    assert t * step >= gap;
    assert forall k :: k * n == if n > 0 then k * step else -(k * step);
    t
  }

  lemma {:induction false} Quotient(gap: int, step: int)
    requires step > 0
    ensures gap > 0 ==> (gap - 1) / step * step < gap <= ((gap - 1) / step + 1) * step
  {}

  lemma {:induction false} Products(a: int, b: int, n: int)
    requires a <= b && n >= 0
    ensures a * n <= b * n
  {}

  /** Steps of one sign stay between the first index and the last. */
  lemma {:induction false} Between(start: int, n: int, k: int, t: int)
    requires 0 <= k <= t && MIN <= start <= MAX && MIN <= start + t * n <= MAX
    ensures MIN <= start + k * n <= MAX && start + (k + 1) * n == start + k * n + n
  {
    if n >= 0 { Products(0, k, n); Products(k, t, n); } else { Products(0, k, -n); Products(k, t, -n); }
  }

  lemma {:induction false} NoWrap(x: int)
    requires MIN <= x <= MAX
    ensures Wrap(x) == x
  {}

  // ----- the meaning of source -----

  /** One turn from the index `index` and the operands `ds` to another: the body leaves its
      step `d` over `ds'`, or just `ds'` for `loop`, which steps by one. After a positive step
      the loop goes on below the limit, after any other above it. */
  ghost predicate Another(sem: Sem, defs: seq<Stmt>, f: nat, self: nat, b: Stmt, plus: bool, limit: int,
                          index: int, d: int, ds: seq<int>, ds': seq<int>, loops: seq<Loop>)
  {
    && Eval(sem, defs, f, self, b, ds, [Loop(limit, index)] + loops) == Done((if plus then [d] else []) + ds', Fell)
    && (plus || d == 1)
    && MIN <= index + d <= MAX
    && (if d > 0 then index + d < limit else index + d > limit)
  }

  /** Any body: turn `k` begins with `stacks[k]` and the index `indexes[k]`, and ends with the
      step `steps[k]` and `stacks[k + 1]`. */
  ghost predicate GoesOn(sem: Sem, defs: seq<Stmt>, f: nat, self: nat, b: Stmt, plus: bool, limit: int,
                         indexes: seq<int>, steps: seq<int>, stacks: seq<seq<int>>, loops: seq<Loop>)
  {
    && |indexes| == |stacks| == |steps| + 1 && |steps| <= f
    && forall k {:trigger steps[k]} :: 0 <= k < |steps| ==>
         && Another(sem, defs, f - k, self, b, plus, limit, indexes[k], steps[k], stacks[k], stacks[k + 1], loops)
         && indexes[k + 1] == indexes[k] + steps[k]
  }

  /** What a turn that leaves its step `d` over `ds'`, or just `ds'` for `loop`, leads to. */
  lemma {:induction false} TurnEnds(sem: Sem, defs: seq<Stmt>, f: nat, self: nat, b: Stmt, plus: bool, limit: int,
                                    index: int, d: int, ds: seq<int>, ds': seq<int>, loops: seq<Loop>)
    requires Eval(sem, defs, f, self, b, ds, [Loop(limit, index)] + loops)
          == Done((if plus then [d] else []) + ds', Fell)
    requires (plus || d == 1) && MIN <= index + d <= MAX
    ensures EvalDo(sem, defs, f, self, b, plus, ds, Loop(limit, index), loops)
         == if !(if d > 0 then index + d < limit else index + d > limit) then Done(ds', Fell)
            else if f == 0 then Timeout
            else EvalDo(sem, defs, f - 1, self, b, plus, ds', Loop(limit, index + d), loops)
  {
    hide Eval;
    NoWrap(index + d);
    assert ([d] + ds')[1..] == ds';
    assert [] + ds' == ds';
  }

  lemma {:induction false} TurnsPass(sem: Sem, defs: seq<Stmt>, f: nat, self: nat, b: Stmt, plus: bool, limit: int,
                                     indexes: seq<int>, steps: seq<int>, stacks: seq<seq<int>>, loops: seq<Loop>,
                                     k: nat)
    requires GoesOn(sem, defs, f, self, b, plus, limit, indexes, steps, stacks, loops) && k <= |steps|
    ensures EvalDo(sem, defs, f, self, b, plus, stacks[0], Loop(limit, indexes[0]), loops)
         == EvalDo(sem, defs, f - k, self, b, plus, stacks[k], Loop(limit, indexes[k]), loops)
    decreases k
  {
    hide Eval, EvalDo;
    if k > 0 {
      TurnsPass(sem, defs, f, self, b, plus, limit, indexes, steps, stacks, loops, k - 1);
      var d := steps[k - 1];
      TurnEnds(sem, defs, f - (k - 1), self, b, plus, limit, indexes[k - 1], d, stacks[k - 1], stacks[k], loops);
    }
  }

  /** `do`, and `?do` with different bounds, take the start index from the top of the stack and
      the limit from below it. */
  lemma {:induction false} LoopStarts(sem: Sem, defs: seq<Stmt>, f: nat, self: nat, query: bool, b: Stmt, plus: bool,
                                      start: int, limit: int, ds: seq<int>, loops: seq<Loop>)
    requires query ==> start != limit
    ensures Eval(sem, defs, f, self, Do(query, b, plus), [start, limit] + ds, loops)
         == EvalDo(sem, defs, f, self, b, plus, ds, Loop(limit, start), loops)
  {
    hide EvalDo;
    assert ([start, limit] + ds)[2..] == ds;
  }

  /** The law of counted loops: the loop ends with the first step that brings the index to the
      limit or past it. */
  lemma {:induction false} LoopEnds(sem: Sem, defs: seq<Stmt>, f: nat, self: nat, query: bool, b: Stmt, plus: bool,
                                    limit: int, indexes: seq<int>, steps: seq<int>, stacks: seq<seq<int>>,
                                    d: int, last: seq<int>, loops: seq<Loop>)
    requires GoesOn(sem, defs, f, self, b, plus, limit, indexes, steps, stacks, loops)
    requires query ==> indexes[0] != limit
    requires var t := |steps|;
             && Eval(sem, defs, f - t, self, b, stacks[t], [Loop(limit, indexes[t])] + loops)
                == Done((if plus then [d] else []) + last, Fell)
             && (plus || d == 1)
             && MIN <= indexes[t] + d <= MAX
             && if d > 0 then indexes[t] + d >= limit else indexes[t] + d <= limit
    ensures Eval(sem, defs, f, self, Do(query, b, plus), [indexes[0], limit] + stacks[0], loops) == Done(last, Fell)
  {
    hide Eval, EvalDo;
    var t := |steps|;
    LoopStarts(sem, defs, f, self, query, b, plus, indexes[0], limit, stacks[0], loops);
    TurnsPass(sem, defs, f, self, b, plus, limit, indexes, steps, stacks, loops, t);
    TurnEnds(sem, defs, f - t, self, b, plus, limit, indexes[t], d, stacks[t], last, loops);
  }

  /** `leave` ends the loop in the middle of any turn. */
  lemma {:induction false} LeaveEnds(sem: Sem, defs: seq<Stmt>, f: nat, self: nat, query: bool, b: Stmt, plus: bool,
                                     limit: int, indexes: seq<int>, steps: seq<int>, stacks: seq<seq<int>>,
                                     last: seq<int>, loops: seq<Loop>)
    requires GoesOn(sem, defs, f, self, b, plus, limit, indexes, steps, stacks, loops)
    requires query ==> indexes[0] != limit
    requires var t := |steps|;
             Eval(sem, defs, f - t, self, b, stacks[t], [Loop(limit, indexes[t])] + loops) == Done(last, Left)
    ensures Eval(sem, defs, f, self, Do(query, b, plus), [indexes[0], limit] + stacks[0], loops) == Done(last, Fell)
  {
    hide Eval;
    LoopStarts(sem, defs, f, self, query, b, plus, indexes[0], limit, stacks[0], loops);
    TurnsPass(sem, defs, f, self, b, plus, limit, indexes, steps, stacks, loops, |steps|);
  }

  /** `?do` with equal bounds does not run its body, whatever it is. */
  lemma {:induction false} EqualBounds(sem: Sem, defs: seq<Stmt>, f: nat, self: nat, b: Stmt, plus: bool, x: int,
                                       ds: seq<int>, loops: seq<Loop>)
    ensures Eval(sem, defs, f, self, Do(true, b, plus), [x, x] + ds, loops) == Done(ds, Fell)
  {
    assert ([x, x] + ds)[2..] == ds;
  }

  // ----- the indices a loop sees -----

  /** `do i n +loop` */
  function ByStep(n: int): Stmt { Do(false, Seq(Atom(WI), Atom(WLit(n))), true) }

  /** `do i loop` */
  const BYONE: Stmt := Do(false, Atom(WI), false)

  /** `t` indices on a stack, the first one deepest. */
  function Indexes(start: int, n: int, t: nat): (s: seq<int>)
    ensures |s| == t
    ensures forall k :: 0 <= k < t ==> s[t - 1 - k] == start + k * n
  {
    if t == 0 then [] else [start + (t - 1) * n] + Indexes(start, n, t - 1)
  }

  lemma {:induction false} BodyPushes(sem: Sem, defs: seq<Stmt>, f: nat, self: nat, n: int, ds: seq<int>,
                                      l: Loop, loops: seq<Loop>)
    ensures Eval(sem, defs, f, self, Atom(WI), ds, [l] + loops) == Done([l.index] + ds, Fell)
    ensures Eval(sem, defs, f, self, Seq(Atom(WI), Atom(WLit(n))), ds, [l] + loops)
         == Done([n] + ([l.index] + ds), Fell)
  {
    assert ([l] + loops)[0] == l;
    assert Eval(sem, defs, f, self, Atom(WI), ds, [l] + loops) == Done([l.index] + ds, Fell);
    assert Eval(sem, defs, f, self, Atom(WLit(n)), [l.index] + ds, [l] + loops) == Done([n] + ([l.index] + ds), Fell);
  }

  lemma {:induction false} IndexesGrow(start: int, n: int, t: nat, ds: seq<int>)
    ensures [start + t * n] + (Indexes(start, n, t) + ds) == Indexes(start, n, t + 1) + ds
  {
    assert Indexes(start, n, t + 1) == [start + t * n] + Indexes(start, n, t);
  }

  /** The body of `c` pushes its index, and the step for `+loop`. */
  predicate PushesIndex(c: Stmt, n: int) { c == ByStep(n) || (c == BYONE && n == 1) }

  lemma {:induction false} OneTurn(sem: Sem, defs: seq<Stmt>, f: nat, self: nat, c: Stmt, start: int, limit: int,
                                   n: int, k: nat, t: nat, ds: seq<int>, loops: seq<Loop>)
    requires PushesIndex(c, n) && k < t && MIN <= start <= MAX && MIN <= start + t * n <= MAX
    ensures Eval(sem, defs, f, self, c.body, Indexes(start, n, k) + ds, [Loop(limit, start + k * n)] + loops)
         == Done((if c.plus then [n] else []) + (Indexes(start, n, k + 1) + ds), Fell)
    ensures MIN <= start + k * n + n == start + (k + 1) * n <= MAX
  {
    hide Eval, Indexes;
    BodyPushes(sem, defs, f, self, n, Indexes(start, n, k) + ds, Loop(limit, start + k * n), loops);
    IndexesGrow(start, n, k, ds);
    assert [] + (Indexes(start, n, k + 1) + ds) == Indexes(start, n, k + 1) + ds;
    Between(start, n, k, t);
    Between(start, n, k + 1, t);
  }

  lemma {:induction false} AllTurns(sem: Sem, defs: seq<Stmt>, f: nat, self: nat, c: Stmt, start: int, limit: int,
                                    n: int, t: nat, ds: seq<int>, loops: seq<Loop>)
    returns (indexes: seq<int>, steps: seq<int>, stacks: seq<seq<int>>)
    requires PushesIndex(c, n) && MIN <= start <= MAX && MIN <= start + t * n <= MAX && 1 <= t <= f + 1
    requires forall k :: 1 <= k < t ==> if n > 0 then start + k * n < limit else start + k * n > limit
    ensures GoesOn(sem, defs, f, self, c.body, c.plus, limit, indexes, steps, stacks, loops)
    ensures |steps| == t - 1 && indexes[0] == start && stacks[0] == ds
    ensures indexes[t - 1] == start + (t - 1) * n && stacks[t - 1] == Indexes(start, n, t - 1) + ds
  {
    hide Eval, Indexes;
    indexes, steps, stacks := Turning(start, n, t, ds);
    forall k {:trigger steps[k]} | 0 <= k < |steps|
      ensures Another(sem, defs, f - k, self, c.body, c.plus, limit, indexes[k], steps[k], stacks[k], stacks[k + 1],
                      loops)
      ensures indexes[k + 1] == indexes[k] + steps[k]
    {
      OneTurn(sem, defs, f - k, self, c, start, limit, n, k, t, ds, loops);
    }
  }

  lemma {:induction false} Turning(start: int, n: int, t: nat, ds: seq<int>)
    returns (indexes: seq<int>, steps: seq<int>, stacks: seq<seq<int>>)
    requires t > 0
    ensures |indexes| == |stacks| == t && |steps| == t - 1 && indexes[0] == start && stacks[0] == ds
    ensures forall k :: 0 <= k < t ==> indexes[k] == start + k * n
    ensures forall k :: 0 <= k < t ==> stacks[k] == Indexes(start, n, k) + ds
    ensures forall k :: 0 <= k < t - 1 ==> steps[k] == n
  {
    indexes, steps := seq(t, k => start + k * n), seq(t - 1, k => n);
    stacks := seq(t, k requires 0 <= k => Indexes(start, n, k) + ds);
    assert start + 0 * n == start;
    assert Indexes(start, n, 0) + ds == ds;
  }

  /** Where no index wraps, a loop over `i` leaves exactly start, start + n, … on the stack. */
  lemma {:induction false} CountsBy(sem: Sem, defs: seq<Stmt>, f: nat, self: nat, c: Stmt, start: int, limit: int,
                                    n: int, ds: seq<int>, loops: seq<Loop>)
    requires n != 0 && MIN <= start <= MAX && MIN <= start + Turns(start, limit, n) * n <= MAX
    requires f + 1 >= Turns(start, limit, n)
    requires PushesIndex(c, n)
    ensures Eval(sem, defs, f, self, c, [start, limit] + ds, loops)
         == Done(Indexes(start, n, Turns(start, limit, n)) + ds, Fell)
  {
    hide Eval, Indexes, Turns, GoesOn;
    var t := Turns(start, limit, n);
    var indexes, steps, stacks := AllTurns(sem, defs, f, self, c, start, limit, n, t, ds, loops);
    OneTurn(sem, defs, f - (t - 1), self, c, start, limit, n, t - 1, t, ds, loops);
    LoopEnds(sem, defs, f, self, false, c.body, c.plus, limit, indexes, steps, stacks, n,
             Indexes(start, n, t) + ds, loops);
  }

  /** The same on the machine: the compiled loop stops with those cells on the stack. */
  lemma {:induction false} MachineCountsBy(sem: Sem, defs: seq<Stmt>, d: nat, start: int, limit: int, n: int,
                                           ds: seq<int>)
    requires n != 0 && MIN <= start <= MAX && MIN <= start + Turns(start, limit, n) * n <= MAX
    requires Sensible(defs) && d < |defs| && PushesIndex(defs[d], n)
    ensures var w := Compiled(sem, defs);
            && d < |w.entry|
            && Reaches(w, Start(w, d, [start, limit] + ds),
                       State(HALT, Indexes(start, n, Turns(start, limit, n)) + ds, []))
  {
    var t := Turns(start, limit, n);
    CountsBy(sem, defs, t, d, defs[d], start, limit, n, ds, []);
    CompilerCorrect(sem, defs, d, [start, limit] + ds, t);
  }

  /** `0 3 do i -1 +loop` leaves 3 2 1. */
  lemma {:induction false} ThreeTwoOne(sem: Sem)
    ensures var w := Compiled(sem, [ByStep(-1)]);
            && |w.entry| > 0
            && Reaches(w, Start(w, 0, [3, 0]), State(HALT, [1, 2, 3], []))
  {
    assert Turns(3, 0, -1) == 3;
    MachineCountsBy(sem, [ByStep(-1)], 0, 3, 0, -1, []);
    assert Indexes(3, -1, 3) + [] == [1, 2, 3];
    assert [3, 0] + [] == [3, 0];
  }
}
