/** The three factorials of the repository's test of argument frames: each leaves the factorial
    in a cell, by recursion, by tail recursion and by a counted loop over a local, and gives
    the caller's frame and return stack back. */
module FramedSamples {
  import opened ThreadedCode
  import opened Options
  import opened Arithmetic
  import opened Structured
  import opened Frames
  import opened ForthWords
  import C = CountedLoops
  import L = FrameLoops
  import N = Numbers

  function Factorial(n: nat): nat { if n == 0 then 1 else n * Factorial(n - 1) }

  lemma {:induction false} WrapProduct(a: int, b: int)
    ensures Wrap(a * Wrap(b)) == Wrap(a * b)
  {
    N.WrapStep(Wrap(b), b, a, 0);
    assert Wrap(b) * a == a * Wrap(b) && b * a == a * b;
  }

  lemma {:induction false} WordsAreLocal()
    ensures Local(WORDS)
  {
    hide Effect;
    forall id: nat, ds: seq<int>, rest: seq<int> | WORDS(id, ds).Some?
      ensures WORDS(id, ds + rest) == Some(WORDS(id, ds).val + rest)
    {
      EffectStays(id, ds, rest);
    }
  }

  lemma {:induction false} Goes(defs: seq<FDef>, f: nat, d: nat, id: nat, rest: FStmt, ds: seq<int>, ds': seq<int>,
                                vars: seq<Opt<int>>, loops: seq<Loop>)
    requires d < |defs| && Effect(id, ds) == Some(ds')
    ensures FEval(WORDS, defs, f, d, FPlain(id), ds, vars, loops) == FDone(ds', vars, HFell)
    ensures FEval(WORDS, defs, f, d, FSeq(FPlain(id), rest), ds, vars, loops)
         == FEval(WORDS, defs, f, d, rest, ds', vars, loops)
  {
    hide Effect;
    assert FEval(WORDS, defs, f, d, FPlain(id), ds, vars, loops) == FDone(ds', vars, HFell);
  }

  lemma {:induction false} GetGoes(defs: seq<FDef>, f: nat, d: nat, k: nat, x: int, rest: FStmt, ds: seq<int>,
                                   vars: seq<Opt<int>>, loops: seq<Loop>)
    requires d < |defs| && 1 <= k <= |vars| && vars[k - 1] == Some(x)
    ensures FEval(WORDS, defs, f, d, FGet(k), ds, vars, loops) == FDone([x] + ds, vars, HFell)
    ensures FEval(WORDS, defs, f, d, FSeq(FGet(k), rest), ds, vars, loops)
         == FEval(WORDS, defs, f, d, rest, [x] + ds, vars, loops)
  {
    assert FEval(WORDS, defs, f, d, FGet(k), ds, vars, loops) == FDone([x] + ds, vars, HFell);
  }

  lemma {:induction false} SeqGoes(defs: seq<FDef>, f: nat, d: nat, a: FStmt, b: FStmt, ds: seq<int>, ds': seq<int>,
                                   vars: seq<Opt<int>>, vars': seq<Opt<int>>, loops: seq<Loop>)
    requires d < |defs| && FEval(WORDS, defs, f, d, a, ds, vars, loops) == FDone(ds', vars', HFell)
    ensures FEval(WORDS, defs, f, d, FSeq(a, b), ds, vars, loops) == FEval(WORDS, defs, f, d, b, ds', vars', loops)
  {}

  lemma {:induction false} LitGoes(defs: seq<FDef>, f: nat, d: nat, n: int, ds: seq<int>, vars: seq<Opt<int>>,
                                   loops: seq<Loop>)
    requires d < |defs|
    ensures FEval(WORDS, defs, f, d, FLit(n), ds, vars, loops) == FDone([n] + ds, vars, HFell)
  {}

  lemma {:induction false} SetGoes(defs: seq<FDef>, f: nat, d: nat, k: nat, x: int, ds: seq<int>,
                                   vars: seq<Opt<int>>, loops: seq<Loop>)
    requires d < |defs| && 1 <= k <= |vars|
    ensures FEval(WORDS, defs, f, d, FSet(k), [x] + ds, vars, loops) == FDone(ds, vars[k - 1 := Some(x)], HFell)
  {
    assert ([x] + ds)[1..] == ds;
  }

  /** `n 0> if … else … then` */
  function Guarded(more: FStmt, done: FStmt): FStmt { FSeq(FGet(1), FSeq(FPlain(ZEROGREATER), FIf(more, done))) }

  lemma {:induction false} GuardGoes(defs: seq<FDef>, f: nat, d: nat, n: int, more: FStmt, done: FStmt,
                                     vars: seq<Opt<int>>)
    requires d < |defs| && vars != [] && vars[0] == Some(n)
    ensures FEval(WORDS, defs, f, d, Guarded(more, done), [], vars, [])
         == FEval(WORDS, defs, f, d, if n > 0 then more else done, [], vars, [])
  {
    GetGoes(defs, f, d, 1, n, FSeq(FPlain(ZEROGREATER), FIf(more, done)), [], vars, []);
    Unary(n, []);
    Goes(defs, f, d, ZEROGREATER, FIf(more, done), [n] + [], [Flag(n > 0)] + [], vars, []);
    assert ([Flag(n > 0)] + [])[1..] == [];
  }

  // ----- recursive { n } n 0> if n 1- recurse n * else 1 then -----

  const MULTIPLY: FStmt := FSeq(FGet(1), FSeq(FPlain(ONEMINUS), FSeq(FCall(0), FSeq(FGet(1), FPlain(TIMES)))))
  const RECURSIVE: FDef := FDef(1, 0, Guarded(MULTIPLY, FLit(1)))

  lemma {:induction false} CallGoes(defs: seq<FDef>, f: nat, d: nat, x: int, r: int, ds: seq<int>,
                                    vars: seq<Opt<int>>, loops: seq<Loop>)
    requires d < |defs| && f > 0 && defs[0].args == 1 && Apply(WORDS, defs, f - 1, 0, [x]) == DDone([r])
    ensures FEval(WORDS, defs, f, d, FCall(0), [x] + ds, vars, loops) == FDone([r] + ds, vars, HFell)
  {
    hide Apply;
    assert ([x] + ds)[..1] == [x] && ([x] + ds)[1..] == ds;
  }

  lemma {:induction false} ApplyIs(defs: seq<FDef>, f: nat, d: nat, top: seq<int>, results: seq<int>,
                                   vars: seq<Opt<int>>)
    requires d < |defs|
    requires FEval(WORDS, defs, f, d, defs[d].body, [], Initial(top, defs[d].locals), []) == FDone(results, vars, HFell)
    ensures Apply(WORDS, defs, f, d, top) == DDone(results)
  {
    hide FEval;
  }

  lemma {:induction false} RecursiveRuns(f: nat, n: nat)
    requires n <= C.MAX && f >= n
    ensures Apply(WORDS, [RECURSIVE], f, 0, [n]) == DDone([Wrap(Factorial(n))])
    decreases n
  {
    hide FEval, Apply, Effect, Wrap;
    var defs := [RECURSIVE];
    var vars := Initial([n], 0);
    assert vars[0] == Some(n);
    GuardGoes(defs, f, 0, n, MULTIPLY, FLit(1), vars);
    if n == 0 {
      LitGoes(defs, f, 0, 1, [], vars, []);
      C.NoWrap(1);
      assert [1] + [] == [1];
      ApplyIs(defs, f, 0, [n], [1], vars);
    } else {
      var r := Wrap(Factorial(n - 1));
      RecursiveRuns(f - 1, n - 1);
      var rest := FSeq(FGet(1), FPlain(TIMES));
      GetGoes(defs, f, 0, 1, n, FSeq(FPlain(ONEMINUS), FSeq(FCall(0), rest)), [], vars, []);
      Unary(n, []);
      C.NoWrap(n - 1);
      Goes(defs, f, 0, ONEMINUS, FSeq(FCall(0), rest), [n] + [], [n - 1] + [], vars, []);
      CallGoes(defs, f, 0, n - 1, r, [], vars, []);
      SeqGoes(defs, f, 0, FCall(0), rest, [n - 1] + [], [r] + [], vars, vars, []);
      GetGoes(defs, f, 0, 1, n, FPlain(TIMES), [r] + [], vars, []);
      assert [n] + ([r] + []) == [n, r] + [];
      Binary(r, n, []);
      WrapProduct(n, Factorial(n - 1));
      assert r * n == n * r;
      Goes(defs, f, 0, TIMES, FSkip, [n, r] + [], [Wrap(r * n)] + [], vars, []);
      assert [Wrap(r * n)] + [] == [Wrap(r * n)];
      ApplyIs(defs, f, 0, [n], [Wrap(r * n)], vars);
    }
  }

  // ----- tail-recursive { n a } n 0> if n 1- n a * tail-recurse else a then -----

  const NEXT: FStmt :=
    FSeq(FGet(1), FSeq(FPlain(ONEMINUS), FSeq(FGet(1), FSeq(FGet(2), FSeq(FPlain(TIMES), FTail)))))
  const TAILRECURSIVE: FDef := FDef(2, 0, Guarded(NEXT, FGet(2)))

  lemma {:induction false} NextGoes(f: nat, n: int, a: int, vars: seq<Opt<int>>)
    requires vars == [Some(n), Some(a)]
    ensures FEval(WORDS, [TAILRECURSIVE], f, 0, NEXT, [], vars, [])
         == FDone([Wrap(n * a), Wrap(n - 1)], vars, HRestarted)
  {
    hide FEval, Effect, Wrap;
    var defs, k, m := [TAILRECURSIVE], Wrap(n - 1), Wrap(n * a);
    var r3 := FSeq(FPlain(TIMES), FTail);
    var r2 := FSeq(FGet(1), FSeq(FGet(2), r3));
    GetGoes(defs, f, 0, 1, n, FSeq(FPlain(ONEMINUS), r2), [], vars, []);
    Unary(n, []);
    Goes(defs, f, 0, ONEMINUS, r2, [n] + [], [k] + [], vars, []);
    GetGoes(defs, f, 0, 1, n, FSeq(FGet(2), r3), [k] + [], vars, []);
    GetGoes(defs, f, 0, 2, a, r3, [n] + ([k] + []), vars, []);
    assert [a] + ([n] + ([k] + [])) == [a, n] + [k];
    Binary(n, a, [k]);
    Goes(defs, f, 0, TIMES, FTail, [a, n] + [k], [m] + [k], vars, []);
    assert [m] + [k] == [m, k];
    TailEnds(defs, f, [m, k], vars);
  }

  lemma {:induction false} TailEnds(defs: seq<FDef>, f: nat, ds: seq<int>, vars: seq<Opt<int>>)
    requires defs != []
    ensures FEval(WORDS, defs, f, 0, FTail, ds, vars, []) == FDone(ds, vars, HRestarted)
  {}

  lemma {:induction false} ApplyAgain(defs: seq<FDef>, f: nat, d: nat, top: seq<int>, next: seq<int>,
                                      vars: seq<Opt<int>>, results: seq<int>)
    requires d < |defs| && f > 0 && |next| == defs[d].args
    requires FEval(WORDS, defs, f, d, defs[d].body, [], Initial(top, defs[d].locals), [])
          == FDone(next, vars, HRestarted)
    requires Apply(WORDS, defs, f - 1, d, next) == DDone(results)
    ensures Apply(WORDS, defs, f, d, top) == DDone(results)
  {
    hide FEval;
    assert next[..|next|] == next && results + next[|next|..] == results;
  }

  lemma {:induction false} TailRecursiveRuns(f: nat, n: nat, a: int)
    requires n <= C.MAX && f >= n
    ensures Apply(WORDS, [TAILRECURSIVE], f, 0, [Wrap(a), n]) == DDone([Wrap(a * Factorial(n))])
    decreases n
  {
    hide FEval, Apply, Effect, Wrap;
    var defs, top := [TAILRECURSIVE], [Wrap(a), n];
    var vars := Initial(top, 0);
    assert vars == [Some(n), Some(Wrap(a))];
    GuardGoes(defs, f, 0, n, NEXT, FGet(2), vars);
    if n == 0 {
      GetGoes(defs, f, 0, 2, Wrap(a), FSkip, [], vars, []);
      assert [Wrap(a)] + [] == [Wrap(a)];
      ApplyIs(defs, f, 0, top, [Wrap(a)], vars);
    } else {
      NextGoes(f, n, Wrap(a), vars);
      C.NoWrap(n - 1);
      WrapProduct(n, a);
      TailRecursiveRuns(f - 1, n - 1, n * a);
      Regrouped(n, a);
      ApplyAgain(defs, f, 0, top, [Wrap(n * a), n - 1], vars, [Wrap(a * Factorial(n))]);
    }
  }

  lemma {:induction false} Regrouped(n: nat, a: int)
    requires n > 0
    ensures n * a * Factorial(n - 1) == a * Factorial(n)
  {
    var x := Factorial(n - 1);
    assert n * a * x == a * (n * x);
  }

  // ----- iterative { n | a } 1 -> a n 1+ 1 do i a * -> a loop a -----

  const STEP: FStmt := FSeq(FIndex(false), FSeq(FGet(2), FSeq(FPlain(TIMES), FSet(2))))
  const ITERATIVE: FDef :=
    FDef(1, 1, FSeq(FSeq(FLit(1), FSet(2)),
               FSeq(FGet(1), FSeq(FPlain(ONEPLUS), FSeq(FLit(1), FSeq(FDo(STEP, false), FGet(2)))))))

  lemma {:induction false} StepGoes(f: nat, n: int, a: int, limit: int, index: int)
    ensures FEval(WORDS, [ITERATIVE], f, 0, STEP, [], [Some(n), Some(a)], [Loop(limit, index)] + [])
         == FDone([], [Some(n), Some(Wrap(index * a))], HFell)
  {
    hide FEval, Effect, Wrap;
    var defs, vars, loops, m := [ITERATIVE], [Some(n), Some(a)], [Loop(limit, index)] + [], Wrap(index * a);
    var rest := FSeq(FPlain(TIMES), FSet(2));
    IndexGoes(defs, f, [], vars, loops);
    SeqGoes(defs, f, 0, FIndex(false), FSeq(FGet(2), rest), [], [index] + [], vars, vars, loops);
    GetGoes(defs, f, 0, 2, a, rest, [index] + [], vars, loops);
    assert [a] + ([index] + []) == [a, index] + [];
    Binary(index, a, []);
    Goes(defs, f, 0, TIMES, FSet(2), [a, index] + [], [m] + [], vars, loops);
    SetGoes(defs, f, 0, 2, m, [], vars, loops);
  }

  lemma {:induction false} IndexGoes(defs: seq<FDef>, f: nat, ds: seq<int>, vars: seq<Opt<int>>, loops: seq<Loop>)
    requires defs != [] && loops != []
    ensures FEval(WORDS, defs, f, 0, FIndex(false), ds, vars, loops) == FDone([loops[0].index] + ds, vars, HFell)
  {}

  /** The locals before turn `k`, the first being turn 0. */
  function Vars(n: int, k: nat): seq<Opt<int>> { [Some(n), Some(Wrap(Factorial(k)))] }

  lemma {:induction false} TurnGoes(f: nat, n: int, k: nat)
    ensures FEval(WORDS, [ITERATIVE], f, 0, STEP, [], Vars(n, k), [Loop(n + 1, 1 + k)] + [])
         == FDone([] + [], Vars(n, k + 1), HFell)
  {
    hide FEval, Wrap;
    StepGoes(f, n, Wrap(Factorial(k)), n + 1, 1 + k);
    WrapProduct(1 + k, Factorial(k));
    var none: seq<int> := [];
    assert [] + none == none;
  }

  /** The loop runs once for `n` equal to zero, and `n` times otherwise. */
  lemma {:induction false} LoopRuns(f: nat, n: nat)
    requires n < C.MAX && f >= n
    ensures FEval(WORDS, [ITERATIVE], f, 0, FDo(STEP, false), [1, n + 1], Vars(n, 0), [])
         == FDone([], Vars(n, n), HFell)
  {
    hide FEval, Wrap, Vars;
    var t := if n == 0 then 0 else n - 1;
    var indexes, steps, stacks, locals := Turning(n, t);
    forall k {:trigger steps[k]} | 0 <= k < t
      ensures L.Another(WORDS, [ITERATIVE], f - k, 0, STEP, false, n + 1, indexes[k], steps[k], stacks[k],
                        stacks[k + 1], locals[k], locals[k + 1], [])
    {
      TurnGoes(f - k, n, k);
    }
    assert L.GoesOn(WORDS, [ITERATIVE], f, 0, STEP, false, n + 1, indexes, steps, stacks, locals, []);
    TurnGoes(f - t, n, t);
    L.LoopEnds(WORDS, [ITERATIVE], f, 0, STEP, false, n + 1, indexes, steps, stacks, locals, 1, [], Vars(n, t + 1), []);
    assert [1, n + 1] + [] == [1, n + 1];
    SameStart(n);
  }

  lemma {:induction false} Turning(n: nat, t: nat)
    returns (indexes: seq<int>, steps: seq<int>, stacks: seq<seq<int>>, locals: seq<seq<Opt<int>>>)
    ensures |indexes| == |stacks| == |locals| == t + 1 && |steps| == t
    ensures forall k :: 0 <= k <= t ==> indexes[k] == 1 + k && stacks[k] == []
    ensures forall k :: 0 <= k <= t ==> locals[k] == Vars(n, k)
    ensures forall k :: 0 <= k < t ==> steps[k] == 1
  {
    indexes, steps := seq(t + 1, k => 1 + k), seq(t, k => 1);
    stacks := seq(t + 1, k => []);
    locals := seq(t + 1, k requires 0 <= k => Vars(n, k));
  }

  lemma {:induction false} SameStart(n: int)
    ensures Vars(n, 0) == Vars(n, 1)
  {
    assert Factorial(0) == Factorial(1);
  }

  lemma {:induction false} IterativeRuns(f: nat, n: nat)
    requires n < C.MAX && f >= n
    ensures Apply(WORDS, [ITERATIVE], f, 0, [n]) == DDone([Wrap(Factorial(n))])
  {
    hide FEval, Apply, Effect, Wrap;
    var defs := [ITERATIVE];
    var fresh_ := Initial([n], 1);
    assert fresh_ == [Some(n), None];
    var r3 := FSeq(FDo(STEP, false), FGet(2));
    var r2 := FSeq(FLit(1), r3);
    var r1 := FSeq(FGet(1), FSeq(FPlain(ONEPLUS), r2));
    C.NoWrap(1);
    LitGoes(defs, f, 0, 1, [], fresh_, []);
    SetGoes(defs, f, 0, 2, 1, [], fresh_, []);
    SeqGoes(defs, f, 0, FLit(1), FSet(2), [], [1] + [], fresh_, fresh_, []);
    var vars := Vars(n, 0);
    assert fresh_[1 := Some(1)] == vars;
    SeqGoes(defs, f, 0, FSeq(FLit(1), FSet(2)), r1, [], [], fresh_, vars, []);
    GetGoes(defs, f, 0, 1, n, FSeq(FPlain(ONEPLUS), r2), [], vars, []);
    Unary(n, []);
    C.NoWrap(n + 1);
    Goes(defs, f, 0, ONEPLUS, r2, [n] + [], [n + 1] + [], vars, []);
    LitGoes(defs, f, 0, 1, [n + 1] + [], vars, []);
    SeqGoes(defs, f, 0, FLit(1), r3, [n + 1] + [], [1] + ([n + 1] + []), vars, vars, []);
    assert [1] + ([n + 1] + []) == [1, n + 1];
    LoopRuns(f, n);
    SeqGoes(defs, f, 0, FDo(STEP, false), FGet(2), [1, n + 1], [], vars, Vars(n, n), []);
    GetGoes(defs, f, 0, 2, Wrap(Factorial(n)), FSkip, [], Vars(n, n), []);
    assert [Wrap(Factorial(n))] + [] == [Wrap(Factorial(n))];
    ApplyIs(defs, f, 0, [n], [Wrap(Factorial(n))], Vars(n, n));
  }

  // ----- in memory -----

  /** All three, run in memory over any `under`: unless memory runs out the factorial takes the
      place of the arguments, and frame pointer and return stack are the caller's. */
  lemma {:induction false} FactorialsOnMachine(n: nat, f: nat, s: FState, t: FState, under: seq<int>)
    requires n < C.MAX && f >= n && under != []
    requires Sane(s) && Ds(s) == [n] + under && Sane(t) && Ds(t) == [1, n] + under
    ensures Leaves(ExecDef(WORDS, [RECURSIVE], f, 0, s), s, [Wrap(Factorial(n))] + under)
    ensures Leaves(ExecDef(WORDS, [ITERATIVE], f, 0, s), s, [Wrap(Factorial(n))] + under)
    ensures Leaves(ExecDef(WORDS, [TAILRECURSIVE], f, 0, t), t, [Wrap(Factorial(n))] + under)
  {
    hide Apply, ExecDef, Local, Wrap;
    WordsAreLocal();
    C.NoWrap(1);
    RecursiveRuns(f, n);
    FrameDiscipline(WORDS, [RECURSIVE], f, 0, s, [n], under);
    IterativeRuns(f, n);
    FrameDiscipline(WORDS, [ITERATIVE], f, 0, s, [n], under);
    TailRecursiveRuns(f, n, 1);
    FrameDiscipline(WORDS, [TAILRECURSIVE], f, 0, t, [1, n], under);
  }

  predicate Leaves(x: XRes, s: FState, ds: seq<int>) {
    x.XOverflow? || (x.XGone? && x.s.sp <= |x.s.pm| && Frames.Ds(x.s) == ds && x.s.fp == s.fp && x.s.rs == s.rs)
  }
}
