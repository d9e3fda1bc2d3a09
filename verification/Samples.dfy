/** Programs of the repository compiled and run: for every argument the machine stops with the
    value they are meant to compute. */
module Samples {
  import opened ControlSyntax
  import opened ThreadedCode
  import opened Options
  import opened Arithmetic
  import opened Structured
  import opened Programs
  import opened ForthWords
  import C = CountedLoops
  import N = Numbers
  import O = OnePass
  import R = Rationals

  const MAX: int := 0x7fff_ffff

  lemma {:induction false} NoWrap(x: int)
    requires -MAX - 1 <= x <= MAX
    ensures Wrap(x) == x
  {}

  lemma {:induction false} WrapSum(a: int, b: int)
    ensures Wrap(Wrap(a) + Wrap(b)) == Wrap(a + b)
  {
    N.WrapStep(Wrap(a), a, 1, Wrap(b));
    N.WrapStep(Wrap(b), b, 1, a);
  }

  lemma {:induction false} LitGoes(defs: seq<Stmt>, f: nat, self: nat, n: int, rest: Stmt, ds: seq<int>,
                                   loops: seq<Loop>)
    ensures Eval(WORDS, defs, f, self, Seq(Atom(WLit(n)), rest), ds, loops)
         == Eval(WORDS, defs, f, self, rest, [n] + ds, loops)
  {
    assert Eval(WORDS, defs, f, self, Atom(WLit(n)), ds, loops) == Done([n] + ds, Fell);
  }

  lemma {:induction false} IfGoes(defs: seq<Stmt>, f: nat, self: nat, t: Stmt, flag: int, ds: seq<int>,
                                  loops: seq<Loop>)
    ensures Eval(WORDS, defs, f, self, If(t), [flag] + ds, loops)
         == if flag != 0 then Eval(WORDS, defs, f, self, t, ds, loops) else Done(ds, Fell)
  {
    assert ([flag] + ds)[1..] == ds;
  }

  lemma {:induction false} IfElseGoes(defs: seq<Stmt>, f: nat, self: nat, t: Stmt, e: Stmt, flag: int, ds: seq<int>,
                                      loops: seq<Loop>)
    ensures Eval(WORDS, defs, f, self, IfElse(t, e), [flag] + ds, loops)
         == Eval(WORDS, defs, f, self, if flag != 0 then t else e, ds, loops)
  {
    assert ([flag] + ds)[1..] == ds;
  }

  lemma {:induction false} SeqGoes(defs: seq<Stmt>, f: nat, self: nat, a: Stmt, b: Stmt, ds: seq<int>, mid: seq<int>,
                                   loops: seq<Loop>)
    requires Eval(WORDS, defs, f, self, a, ds, loops) == Done(mid, Fell)
    ensures Eval(WORDS, defs, f, self, Seq(a, b), ds, loops) == Eval(WORDS, defs, f, self, b, mid, loops)
  {}

  // ----- fib, recursive -----

  function Fib(n: nat): nat { if n < 2 then n else Fib(n - 1) + Fib(n - 2) }

  /** `dup 1- recurse swap 2- recurse +` */
  const TWOCALLS: Stmt :=
    Seq(P(DUP), Seq(P(ONEMINUS), Seq(Atom(WRecurse), Seq(P(SWAP), Seq(P(TWOMINUS), Seq(Atom(WRecurse), P(PLUS)))))))

  /** `dup 1 > if … then` */
  const FIB: Stmt := Seq(P(DUP), Seq(Atom(WLit(1)), Seq(P(GREATER), If(TWOCALLS))))

  lemma {:induction false} FibCompares(f: nat, n: int, ds: seq<int>)
    ensures Eval(WORDS, [FIB], f, 0, FIB, [n] + ds, [])
         == if n > 1 then Eval(WORDS, [FIB], f, 0, TWOCALLS, [n] + ds, []) else Done([n] + ds, Fell)
  {
    var defs := [FIB];
    Shuffles(0, 0, n, ds);
    Binary(n, 1, [n] + ds);
    hide Eval, Effect;
    Goes(defs, f, 0, DUP, Seq(Atom(WLit(1)), Seq(P(GREATER), If(TWOCALLS))), [n] + ds, [n, n] + ds, []);
    LitGoes(defs, f, 0, 1, Seq(P(GREATER), If(TWOCALLS)), [n, n] + ds, []);
    assert [1] + ([n, n] + ds) == [1, n] + ([n] + ds);
    Goes(defs, f, 0, GREATER, If(TWOCALLS), [1, n] + ([n] + ds), [Flag(n > 1)] + ([n] + ds), []);
    IfGoes(defs, f, 0, TWOCALLS, Flag(n > 1), [n] + ds, []);
  }

  lemma {:induction false} Recurses(defs: seq<Stmt>, f: nat, ds: seq<int>, r: seq<int>)
    requires |defs| > 0 && f > 0 && Eval(WORDS, defs, f - 1, 0, defs[0], ds, []) == Done(r, Fell)
    ensures Eval(WORDS, defs, f, 0, Atom(WRecurse), ds, []) == Done(r, Fell)
  {
    assert Enter(WORDS, defs, f - 1, 0, ds) == Done(r, Fell);
  }

  lemma {:induction false} FibRuns(f: nat, n: nat, ds: seq<int>)
    requires n <= MAX && f >= n
    ensures Eval(WORDS, [FIB], f, 0, FIB, [n] + ds, []) == Done([Wrap(Fib(n))] + ds, Fell)
    decreases n
  {
    hide Eval, Effect, Wrap;
    FibCompares(f, n, ds);
    if n < 2 {
      NoWrap(n);
    } else {
      var defs := [FIB];
      var a, b := Wrap(Fib(n - 1)), Wrap(Fib(n - 2));
      var s2 := Seq(P(TWOMINUS), Seq(Atom(WRecurse), P(PLUS)));
      var s1 := Seq(Atom(WRecurse), Seq(P(SWAP), s2));
      Shuffles(0, 0, n, ds);
      Goes(defs, f, 0, DUP, Seq(P(ONEMINUS), s1), [n] + ds, [n, n] + ds, []);
      assert [n, n] + ds == [n] + ([n] + ds);
      Unary(n, [n] + ds);
      NoWrap(n - 1);
      Goes(defs, f, 0, ONEMINUS, s1, [n, n] + ds, [n - 1] + ([n] + ds), []);
      FibRuns(f - 1, n - 1, [n] + ds);
      Recurses(defs, f, [n - 1] + ([n] + ds), [a] + ([n] + ds));
      SeqGoes(defs, f, 0, Atom(WRecurse), Seq(P(SWAP), s2), [n - 1] + ([n] + ds), [a] + ([n] + ds), []);
      assert [a] + ([n] + ds) == [a, n] + ds;
      Shuffles(0, n, a, ds);
      Goes(defs, f, 0, SWAP, s2, [a, n] + ds, [n, a] + ds, []);
      assert [n, a] + ds == [n] + ([a] + ds);
      FibSecond(f, n, a, b, ds);
    }
  }

  /** `2- recurse +` */
  lemma {:induction false} FibSecond(f: nat, n: nat, a: int, b: int, ds: seq<int>)
    requires 2 <= n <= MAX && f >= n && a == Wrap(Fib(n - 1)) && b == Wrap(Fib(n - 2))
    ensures Eval(WORDS, [FIB], f, 0, Seq(P(TWOMINUS), Seq(Atom(WRecurse), P(PLUS))), [n] + ([a] + ds), [])
         == Done([Wrap(Fib(n))] + ds, Fell)
    decreases n, -1
  {
    hide Eval, Effect, Wrap;
    var defs := [FIB];
    Unary(n, [a] + ds);
    NoWrap(n - 2);
    Goes(defs, f, 0, TWOMINUS, Seq(Atom(WRecurse), P(PLUS)), [n] + ([a] + ds), [n - 2] + ([a] + ds), []);
    FibRuns(f - 1, n - 2, [a] + ds);
    Recurses(defs, f, [n - 2] + ([a] + ds), [b] + ([a] + ds));
    SeqGoes(defs, f, 0, Atom(WRecurse), P(PLUS), [n - 2] + ([a] + ds), [b] + ([a] + ds), []);
    assert [b] + ([a] + ds) == [b, a] + ds;
    Binary(a, b, ds);
    WrapSum(Fib(n - 1), Fib(n - 2));
    Goes(defs, f, 0, PLUS, Skip, [b, a] + ds, [Wrap(a + b)] + ds, []);
  }

  predicate Ok(c: Stmt) { Proper(c) && O.MacrosKnown(c, 0) }

  lemma {:induction false} OkRules()
    ensures forall w {:trigger Ok(Atom(w))} :: IsAtom(w) && !w.WMacro? ==> Ok(Atom(w))
    ensures forall a, b {:trigger Ok(Seq(a, b))} :: Ok(a) && Ok(b) ==> Ok(Seq(a, b))
    ensures forall t {:trigger Ok(If(t))} :: Ok(t) ==> Ok(If(t))
    ensures forall t, e {:trigger Ok(IfElse(t, e))} :: Ok(t) && Ok(e) ==> Ok(IfElse(t, e))
    ensures forall t, b {:trigger Ok(While(t, b))} :: Ok(t) && Ok(b) ==> Ok(While(t, b))
  {}

  lemma {:induction false} MoreKnown(c: Stmt, n: nat, k: nat)
    requires O.MacrosKnown(c, n) && n <= k
    ensures O.MacrosKnown(c, k)
  {
    match c
    case Skip =>
    case Seq(a, b) => MoreKnown(a, n, k); MoreKnown(b, n, k);
    case Atom(w) =>
    case If(t) => MoreKnown(t, n, k);
    case IfElse(t, e) => MoreKnown(t, n, k); MoreKnown(e, n, k);
    case Again(b) => MoreKnown(b, n, k);
    case Until(b) => MoreKnown(b, n, k);
    case While(t, b) => MoreKnown(t, n, k); MoreKnown(b, n, k);
    case Case(arms) => MoreKnownArms(arms, n, k);
    case Do(_, b, _) => MoreKnown(b, n, k);
  }

  lemma {:induction false} MoreKnownArms(arms: Arms, n: nat, k: nat)
    requires O.MacrosKnownArms(arms, n) && n <= k
    ensures O.MacrosKnownArms(arms, k)
  {
    match arms
    case Default(d) => MoreKnown(d, n, k);
    case Arm(p, b, rest) => MoreKnown(p, n, k); MoreKnown(b, n, k); MoreKnownArms(rest, n, k);
  }

  lemma {:induction false} OkIsSensible(defs: seq<Stmt>)
    requires forall k :: 0 <= k < |defs| ==> Ok(defs[k])
    ensures Sensible(defs)
  {
    forall k | 0 <= k < |defs| ensures Proper(defs[k]) && O.MacrosKnown(defs[k], k) { MoreKnown(defs[k], 0, k); }
  }

  /** A definition that ends normally, called on the machine. */
  lemma {:induction false} OnMachine(defs: seq<Stmt>, f: nat, d: nat, ds: seq<int>, r: seq<int>)
    requires Sensible(defs) && d < |defs| && Enter(WORDS, defs, f, d, ds) == Done(r, Fell)
    ensures var w := Compiled(WORDS, defs);
            d < |w.entry| && Reaches(w, Start(w, d, ds), State(HALT, r, []))
  {
    hide Enter;
    CompilerCorrect(WORDS, defs, d, ds, f);
  }

  lemma {:induction false} EntersBody(defs: seq<Stmt>, f: nat, d: nat, ds: seq<int>)
    requires d < |defs|
    ensures var r := Eval(WORDS, defs, f, d, defs[d], ds, []);
            Enter(WORDS, defs, f, d, ds) ==
            if !(r.Done? && r.how == Restarted(0)) then AfterCall(r)
            else if f == 0 then Timeout else Enter(WORDS, defs, f - 1, d, r.ds)
  {
    hide Eval;
  }

  lemma {:induction false} FibOk()
    ensures Ok(FIB)
  {
    hide Ok;
    OkRules();
  }

  /** `fib`, for every argument, on the machine. */
  lemma {:induction false} FibOnMachine(n: nat, ds: seq<int>)
    requires n <= MAX
    ensures var w := Compiled(WORDS, [FIB]);
            |w.entry| > 0 && Reaches(w, Start(w, 0, [n] + ds), State(HALT, [Wrap(Fib(n))] + ds, []))
  {
    hide Eval, Enter, Sensible, Ok, Compiled, Reaches, Wrap;
    FibRuns(n, n, ds);
    EntersBody([FIB], n, 0, [n] + ds);
    FibOk();
    OkIsSensible([FIB]);
    OnMachine([FIB], n, 0, [n] + ds, [Wrap(Fib(n))] + ds);
  }

  // ----- fib, tail-recursive -----

  /** `1- -rot over + swap rot tail-recurse` */
  const ROUND: Stmt :=
    Seq(P(ONEMINUS), Seq(P(DASHROT), Seq(P(OVER), Seq(P(PLUS), Seq(P(SWAP), Seq(P(ROT), Atom(WTailRecurse)))))))

  /** `?dup if … else nip then` */
  const FIBTAIL: Stmt := Seq(P(QDUP), IfElse(ROUND, P(NIP)))

  /** `1 0 rot fib-tail` */
  const FIBITER: Stmt := Seq(Atom(WLit(1)), Seq(Atom(WLit(0)), Seq(P(ROT), Atom(WCall(0)))))

  const FIBS: seq<Stmt> := [FIBTAIL, FIBITER]

  /** A round takes a, b, c to a + b, a, c - 1. */
  lemma {:induction false} RoundGoes(f: nat, a: int, b: int, c: int, ds: seq<int>)
    ensures Eval(WORDS, FIBS, f, 0, ROUND, [c, b, a] + ds, [])
         == Done([Wrap(c - 1), a, Wrap(b + a)] + ds, Restarted(0))
  {
    hide Eval, Effect, Wrap;
    var k := Wrap(c - 1);
    var r6 := Atom(WTailRecurse);
    var r5 := Seq(P(ROT), r6);
    var r4 := Seq(P(SWAP), r5);
    var r3 := Seq(P(PLUS), r4);
    var r2 := Seq(P(OVER), r3);
    RoundEnds(f, a, b, k, ds);
    assert [c, b, a] + ds == [c] + ([b, a] + ds);
    Unary(c, [b, a] + ds);
    Goes(FIBS, f, 0, ONEMINUS, Seq(P(DASHROT), r2), [c, b, a] + ds, [k] + ([b, a] + ds), []);
    assert [k] + ([b, a] + ds) == [k, b, a] + ds;
    Shuffles(a, b, k, ds);
    Goes(FIBS, f, 0, DASHROT, r2, [k, b, a] + ds, [b, a, k] + ds, []);
  }

  /** `over + swap rot tail-recurse` */
  lemma {:induction false} RoundEnds(f: nat, a: int, b: int, k: int, ds: seq<int>)
    ensures Eval(WORDS, FIBS, f, 0, Seq(P(OVER), Seq(P(PLUS), Seq(P(SWAP), Seq(P(ROT), Atom(WTailRecurse))))),
                 [b, a, k] + ds, [])
         == Done([k, a, Wrap(b + a)] + ds, Restarted(0))
  {
    hide Eval, Effect, Wrap;
    var s := Wrap(b + a);
    var r4 := Seq(P(SWAP), Seq(P(ROT), Atom(WTailRecurse)));
    var r3 := Seq(P(PLUS), r4);
    assert [b, a, k] + ds == [b, a] + ([k] + ds);
    Shuffles(0, a, b, [k] + ds);
    Goes(FIBS, f, 0, OVER, r3, [b, a] + ([k] + ds), [a, b, a] + ([k] + ds), []);
    assert [a, b, a] + ([k] + ds) == [a, b, a, k] + ds;
    PlusGoes(f, a, b, k, r4, ds);
    RoundTurns(f, a, s, k, ds);
  }

  lemma {:induction false} PlusGoes(f: nat, a: int, b: int, k: int, rest: Stmt, ds: seq<int>)
    ensures Eval(WORDS, FIBS, f, 0, Seq(P(PLUS), rest), [a, b, a, k] + ds, [])
         == Eval(WORDS, FIBS, f, 0, rest, [Wrap(b + a), a, k] + ds, [])
  {
    hide Eval, Effect, Wrap;
    var under := [a, k] + ds;
    assert [a, b, a, k] + ds == [a, b] + under;
    Binary(b, a, under);
    Goes(FIBS, f, 0, PLUS, rest, [a, b] + under, [Wrap(b + a)] + under, []);
    assert [Wrap(b + a)] + under == [Wrap(b + a), a, k] + ds;
  }

  /** `swap rot tail-recurse` */
  lemma {:induction false} RoundTurns(f: nat, a: int, s: int, k: int, ds: seq<int>)
    ensures Eval(WORDS, FIBS, f, 0, Seq(P(SWAP), Seq(P(ROT), Atom(WTailRecurse))), [s, a, k] + ds, [])
         == Done([k, a, s] + ds, Restarted(0))
  {
    hide Eval, Effect;
    var r6 := Atom(WTailRecurse);
    var r5 := Seq(P(ROT), r6);
    assert [s, a, k] + ds == [s, a] + ([k] + ds);
    Shuffles(0, a, s, [k] + ds);
    Goes(FIBS, f, 0, SWAP, r5, [s, a] + ([k] + ds), [a, s] + ([k] + ds), []);
    assert [a, s] + ([k] + ds) == [a, s, k] + ds;
    Shuffles(k, s, a, ds);
    Goes(FIBS, f, 0, ROT, r6, [a, s, k] + ds, [k, a, s] + ds, []);
    TailGoes(f, [k, a, s] + ds);
  }

  lemma {:induction false} TailGoes(f: nat, ds: seq<int>)
    ensures Eval(WORDS, FIBS, f, 0, Atom(WTailRecurse), ds, []) == Done(ds, Restarted(0))
  {}

  lemma {:induction false} FibTailRuns(f: nat, k: nat, c: nat, ds: seq<int>)
    requires c <= MAX && f >= c
    ensures Enter(WORDS, FIBS, f, 0, [c, Wrap(Fib(k)), Wrap(Fib(k + 1))] + ds) == Done([Wrap(Fib(k + c))] + ds, Fell)
    decreases c
  {
    hide Eval, Effect, Wrap, Enter;
    var a, b := Wrap(Fib(k + 1)), Wrap(Fib(k));
    var s := [c, b, a] + ds;
    EntersBody(FIBS, f, 0, s);
    assert s == [c] + ([b, a] + ds);
    Shuffles(0, 0, c, [b, a] + ds);
    var body := IfElse(ROUND, P(NIP));
    if c == 0 {
      assert s == [0] + ([b, a] + ds);
      Goes(FIBS, f, 0, QDUP, body, s, s, []);
      IfElseGoes(FIBS, f, 0, ROUND, P(NIP), 0, [b, a] + ds, []);
      Shuffles(0, a, b, ds);
      Goes(FIBS, f, 0, NIP, Skip, [b, a] + ds, [b] + ds, []);
    } else {
      assert [c, c] + ([b, a] + ds) == [c] + s;
      Goes(FIBS, f, 0, QDUP, body, s, [c] + s, []);
      IfElseGoes(FIBS, f, 0, ROUND, P(NIP), c, s, []);
      RoundGoes(f, a, b, c, ds);
      NoWrap(c - 1);
      WrapSum(Fib(k), Fib(k + 1));
      FibTailRuns(f - 1, k + 1, c - 1, ds);
    }
  }

  lemma {:induction false} FibIterRuns(f: nat, n: nat, ds: seq<int>)
    requires n <= MAX && f > n
    ensures Enter(WORDS, FIBS, f, 1, [n] + ds) == Done([Wrap(Fib(n))] + ds, Fell)
  {
    hide Eval, Effect, Wrap, Enter;
    EntersBody(FIBS, f, 1, [n] + ds);
    LitGoes(FIBS, f, 1, 1, Seq(Atom(WLit(0)), Seq(P(ROT), Atom(WCall(0)))), [n] + ds, []);
    LitGoes(FIBS, f, 1, 0, Seq(P(ROT), Atom(WCall(0))), [1] + ([n] + ds), []);
    assert [0] + ([1] + ([n] + ds)) == [0, 1, n] + ds;
    Shuffles(n, 1, 0, ds);
    Goes(FIBS, f, 1, ROT, Atom(WCall(0)), [0, 1, n] + ds, [n, 0, 1] + ds, []);
    NoWrap(0);
    NoWrap(1);
    FibTailRuns(f - 1, 0, n, ds);
    CallGoes(f, [n, 0, 1] + ds);
  }

  lemma {:induction false} CallGoes(f: nat, ds: seq<int>)
    requires f > 0
    ensures Eval(WORDS, FIBS, f, 1, Atom(WCall(0)), ds, []) == Enter(WORDS, FIBS, f - 1, 0, ds)
  {
    hide Enter;
  }

  lemma {:induction false} FibsOk()
    ensures Ok(FIBTAIL) && Ok(FIBITER)
  {
    hide Ok;
    OkRules();
  }

  /** `fib-iter`, for every argument, on the machine: the same value, in constant space on the
      return stack. */
  lemma {:induction false} FibIterOnMachine(n: nat, ds: seq<int>)
    requires n <= MAX
    ensures var w := Compiled(WORDS, FIBS);
            |w.entry| > 1 && Reaches(w, Start(w, 1, [n] + ds), State(HALT, [Wrap(Fib(n))] + ds, []))
  {
    hide Eval, Enter, Sensible, Ok, Compiled, Reaches, Wrap;
    FibIterRuns(n + 1, n, ds);
    FibsOk();
    OkIsSensible(FIBS);
    OnMachine(FIBS, n + 1, 1, [n] + ds, [Wrap(Fib(n))] + ds);
  }

  // ----- rnormalize -----

  /** `begin ?dup while tuck mod repeat` */
  const EUCLID: Stmt := While(P(QDUP), Seq(P(TUCK), P(MOD)))

  /** `dup 0< if negate swap negate swap then` */
  const FLIP: Stmt := Seq(P(NEGATE), Seq(P(SWAP), Seq(P(NEGATE), P(SWAP))))
  const SIGNS: Stmt := Seq(P(DUP), Seq(P(ZEROLESS), If(FLIP)))

  /** `tuck / -rot / swap` */
  function Reduce(rest: Stmt): Stmt {
    Seq(P(TUCK), Seq(P(DIVIDE), Seq(P(DASHROT), Seq(P(DIVIDE), Seq(P(SWAP), rest)))))
  }

  /** A pair of literals; the named constants of lib/rationals.f83 leave the same cells. */
  function Pair(r: R.Rat): Stmt { Seq(Atom(WLit(r.num)), Atom(WLit(r.den))) }

  /** `over 0= if 2drop zero exit then 2dup …` */
  const FINITE: Stmt :=
    Seq(P(OVER), Seq(P(ZEROEQUALS), Seq(If(Seq(P(TWODROP), Seq(Pair(R.ZERO), Atom(WExit)))),
    Seq(P(TWODUP), Seq(EUCLID, Reduce(SIGNS))))))

  /** `?dup if 0> if infinity else -infinity then else undefined then` */
  const INFINITE: Stmt :=
    Seq(P(QDUP), IfElse(Seq(P(ZEROGREATER), IfElse(Pair(R.INFINITY), Pair(R.MINUS_INFINITY))), Pair(R.UNDEFINED)))

  /** `?dup if … else … then` */
  const RNORMALIZE: Stmt := Seq(P(QDUP), IfElse(FINITE, INFINITE))

  predicate Small(x: int) { -MAX <= x <= MAX }

  lemma {:induction false} PairGoes(f: nat, r: R.Rat, ds: seq<int>)
    ensures Eval(WORDS, [RNORMALIZE], f, 0, Pair(r), ds, []) == Done([r.den, r.num] + ds, Fell)
  {
    var defs := [RNORMALIZE];
    LitGoes(defs, f, 0, r.num, Atom(WLit(r.den)), ds, []);
    assert Eval(WORDS, defs, f, 0, Atom(WLit(r.den)), [r.num] + ds, []) == Done([r.den] + ([r.num] + ds), Fell);
    assert [r.den] + ([r.num] + ds) == [r.den, r.num] + ds;
  }

  lemma {:induction false} WhileGoes(f: nat, t: Stmt, b: Stmt, ds: seq<int>, flag: int, mid: seq<int>, mid': seq<int>)
    requires Eval(WORDS, [RNORMALIZE], f, 0, t, ds, []) == Done([flag] + mid, Fell)
    requires flag != 0 ==> f > 0 && Eval(WORDS, [RNORMALIZE], f, 0, b, mid, []) == Done(mid', Fell)
    ensures Eval(WORDS, [RNORMALIZE], f, 0, While(t, b), ds, [])
         == if flag == 0 then Done(mid, Fell) else Eval(WORDS, [RNORMALIZE], f - 1, 0, While(t, b), mid', [])
  {
    assert ([flag] + mid)[1..] == mid;
  }

  lemma {:induction false} ModSmaller(a: int, b: int)
    requires b != 0 && Small(a) && Small(b)
    ensures Abs(Mod(a, b)) < Abs(b) && Small(Mod(a, b))
  {
    DivMod(a, b);
  }

  lemma {:induction false} TuckMod(f: nat, a: int, b: int, ds: seq<int>)
    requires b != 0 && Small(a) && Small(b)
    ensures Eval(WORDS, [RNORMALIZE], f, 0, Seq(P(TUCK), P(MOD)), [b, a] + ds, []) == Done([Mod(a, b), b] + ds, Fell)
    ensures Abs(Mod(a, b)) < Abs(b) && Small(Mod(a, b)) && R.Euclid(a, b) == R.Euclid(b, Mod(a, b))
  {
    hide Eval, Effect, Wrap, Mod;
    ModSmaller(a, b);
    NoWrap(Mod(a, b));
    var defs := [RNORMALIZE];
    Shuffles(0, a, b, ds);
    Goes(defs, f, 0, TUCK, P(MOD), [b, a] + ds, [b, a, b] + ds, []);
    assert [b, a, b] + ds == [b, a] + ([b] + ds);
    Binary(a, b, [b] + ds);
    Goes(defs, f, 0, MOD, Skip, [b, a] + ([b] + ds), [Mod(a, b)] + ([b] + ds), []);
    assert [Mod(a, b)] + ([b] + ds) == [Mod(a, b), b] + ds;
  }

  lemma {:induction false} FlagGoes(f: nat, a: int, b: int, ds: seq<int>)
    ensures Eval(WORDS, [RNORMALIZE], f, 0, P(QDUP), [b, a] + ds, [])
         == Done([b] + if b == 0 then [a] + ds else [b, a] + ds, Fell)
  {
    hide Eval, Effect;
    assert [b, a] + ds == [b] + ([a] + ds);
    assert [b, b] + ([a] + ds) == [b] + ([b, a] + ds);
    Shuffles(0, 0, b, [a] + ds);
    Goes([RNORMALIZE], f, 0, QDUP, Skip, [b, a] + ds, [b] + if b == 0 then [a] + ds else [b, a] + ds, []);
  }

  /** Euclid's loop leaves the signed divisor. */
  lemma {:induction false} EuclidRuns(f: nat, a: int, b: int, ds: seq<int>)
    requires Small(a) && Small(b) && f >= Abs(b)
    ensures Eval(WORDS, [RNORMALIZE], f, 0, EUCLID, [b, a] + ds, []) == Done([R.Euclid(a, b)] + ds, Fell)
    decreases Abs(b)
  {
    hide Eval, Effect, Mod, Small;
    FlagGoes(f, a, b, ds);
    if b == 0 {
      WhileGoes(f, P(QDUP), Seq(P(TUCK), P(MOD)), [b, a] + ds, 0, [a] + ds, []);
    } else {
      TuckMod(f, a, b, ds);
      WhileGoes(f, P(QDUP), Seq(P(TUCK), P(MOD)), [b, a] + ds, b, [b, a] + ds, [Mod(a, b), b] + ds);
      EuclidRuns(f - 1, b, Mod(a, b), ds);
    }
  }

  /** `tuck / -rot /` */
  lemma {:induction false} Divisions(f: nat, n: int, d: int, g: int, rest: Stmt, ds: seq<int>)
    requires g != 0 && Small(n) && Small(d)
    ensures Small(Div(n, g)) && Small(Div(d, g))
    ensures Eval(WORDS, [RNORMALIZE], f, 0, Reduce(rest), [g, d, n] + ds, [])
         == Eval(WORDS, [RNORMALIZE], f, 0, rest, [Div(d, g), Div(n, g)] + ds, [])
  {
    hide Eval, Effect, Div, Wrap;
    var y := Div(d, g);
    DivSmaller(n, g);
    DivSmaller(d, g);
    NoWrap(y);
    var defs := [RNORMALIZE];
    var r3 := Seq(P(DASHROT), Seq(P(DIVIDE), Seq(P(SWAP), rest)));
    assert [g, d, n] + ds == [g, d] + ([n] + ds);
    Shuffles(0, d, g, [n] + ds);
    Goes(defs, f, 0, TUCK, Seq(P(DIVIDE), r3), [g, d, n] + ds, [g, d, g] + ([n] + ds), []);
    assert [g, d, g] + ([n] + ds) == [g, d] + ([g, n] + ds);
    Binary(d, g, [g, n] + ds);
    Goes(defs, f, 0, DIVIDE, r3, [g, d] + ([g, n] + ds), [y] + ([g, n] + ds), []);
    SecondDivision(f, n, g, y, rest, ds);
  }

  /** `-rot / swap` */
  lemma {:induction false} SecondDivision(f: nat, n: int, g: int, y: int, rest: Stmt, ds: seq<int>)
    requires g != 0 && Small(n)
    ensures Eval(WORDS, [RNORMALIZE], f, 0, Seq(P(DASHROT), Seq(P(DIVIDE), Seq(P(SWAP), rest))),
                 [y] + ([g, n] + ds), [])
         == Eval(WORDS, [RNORMALIZE], f, 0, rest, [y, Div(n, g)] + ds, [])
  {
    hide Eval, Effect, Div, Wrap;
    var x := Div(n, g);
    DivSmaller(n, g);
    NoWrap(x);
    var defs := [RNORMALIZE];
    var r5 := Seq(P(SWAP), rest);
    var r4 := Seq(P(DIVIDE), r5);
    assert [y] + ([g, n] + ds) == [y, g, n] + ds;
    Shuffles(n, g, y, ds);
    Goes(defs, f, 0, DASHROT, r4, [y, g, n] + ds, [g, n, y] + ds, []);
    assert [g, n, y] + ds == [g, n] + ([y] + ds);
    Binary(n, g, [y] + ds);
    Goes(defs, f, 0, DIVIDE, r5, [g, n] + ([y] + ds), [x] + ([y] + ds), []);
    assert [x] + ([y] + ds) == [x, y] + ds;
    Shuffles(0, y, x, ds);
    Goes(defs, f, 0, SWAP, rest, [x, y] + ds, [y, x] + ds, []);
  }

  lemma {:induction false} DivSmaller(a: int, b: int)
    requires b != 0 && Small(a)
    ensures Small(Div(a, b))
  {
    var x, y := Abs(a), Abs(b);
    var q := x / y;
    assert x == q * y + x % y;
    C.Products(1, y, q);
  }

  /** `dup 0< if negate swap negate swap then` */
  lemma {:induction false} SignsGo(f: nat, n: int, d: int, ds: seq<int>)
    requires Small(n) && Small(d)
    ensures Eval(WORDS, [RNORMALIZE], f, 0, SIGNS, [d, n] + ds, [])
         == Done(if d < 0 then [-d, -n] + ds else [d, n] + ds, Fell)
  {
    hide Eval, Effect;
    var defs := [RNORMALIZE];
    assert [d, n] + ds == [d] + ([n] + ds);
    Shuffles(0, 0, d, [n] + ds);
    Goes(defs, f, 0, DUP, Seq(P(ZEROLESS), If(FLIP)), [d, n] + ds, [d, d] + ([n] + ds), []);
    assert [d, d] + ([n] + ds) == [d] + ([d, n] + ds);
    Unary(d, [d, n] + ds);
    Goes(defs, f, 0, ZEROLESS, If(FLIP), [d] + ([d, n] + ds), [Flag(d < 0)] + ([d, n] + ds), []);
    IfGoes(defs, f, 0, FLIP, Flag(d < 0), [d, n] + ds, []);
    if d < 0 {
      FlipGoes(f, n, d, ds);
    }
  }

  lemma {:induction false} FlipGoes(f: nat, n: int, d: int, ds: seq<int>)
    requires Small(n) && Small(d)
    ensures Eval(WORDS, [RNORMALIZE], f, 0, FLIP, [d, n] + ds, []) == Done([-d, -n] + ds, Fell)
  {
    hide Eval, Effect, Wrap;
    NoWrap(-d);
    NoWrap(-n);
    var defs := [RNORMALIZE];
    assert [d, n] + ds == [d] + ([n] + ds);
    var r := Seq(P(NEGATE), P(SWAP));
    Unary(d, [n] + ds);
    Goes(defs, f, 0, NEGATE, Seq(P(SWAP), r), [d, n] + ds, [-d] + ([n] + ds), []);
    assert [-d] + ([n] + ds) == [-d, n] + ds;
    Shuffles(0, n, -d, ds);
    Goes(defs, f, 0, SWAP, r, [-d, n] + ds, [n, -d] + ds, []);
    assert [n, -d] + ds == [n] + ([-d] + ds);
    Unary(n, [-d] + ds);
    Goes(defs, f, 0, NEGATE, P(SWAP), [n] + ([-d] + ds), [-n] + ([-d] + ds), []);
    assert [-n] + ([-d] + ds) == [-n, -d] + ds;
    Shuffles(0, -d, -n, ds);
    Goes(defs, f, 0, SWAP, Skip, [-n, -d] + ds, [-d, -n] + ds, []);
  }

  /** `over 0= if 2drop zero exit then` */
  lemma {:induction false} ZeroLeaves(f: nat, n: int, d: int, rest: Stmt, ds: seq<int>)
    ensures Eval(WORDS, [RNORMALIZE], f, 0,
                 Seq(P(OVER), Seq(P(ZEROEQUALS), Seq(If(Seq(P(TWODROP), Seq(Pair(R.ZERO), Atom(WExit)))), rest))),
                 [d, n] + ds, [])
         == if n == 0 then Done([1, 0] + ds, Returned) else Eval(WORDS, [RNORMALIZE], f, 0, rest, [d, n] + ds, [])
  {
    hide Eval, Effect;
    var defs, out := [RNORMALIZE], Seq(P(TWODROP), Seq(Pair(R.ZERO), Atom(WExit)));
    Shuffles(0, n, d, ds);
    Goes(defs, f, 0, OVER, Seq(P(ZEROEQUALS), Seq(If(out), rest)), [d, n] + ds, [n, d, n] + ds, []);
    assert [n, d, n] + ds == [n] + ([d, n] + ds);
    Unary(n, [d, n] + ds);
    Goes(defs, f, 0, ZEROEQUALS, Seq(If(out), rest), [n] + ([d, n] + ds), [Flag(n == 0)] + ([d, n] + ds), []);
    IfGoes(defs, f, 0, out, Flag(n == 0), [d, n] + ds, []);
    if n == 0 {
      Goes(defs, f, 0, TWODROP, Seq(Pair(R.ZERO), Atom(WExit)), [d, n] + ds, ds, []);
      PairGoes(f, R.ZERO, ds);
      SeqGoes(defs, f, 0, Pair(R.ZERO), Atom(WExit), ds, [1, 0] + ds, []);
      Leaves(f, If(out), rest, [Flag(true)] + ([d, n] + ds), [1, 0] + ds);
    } else {
      SeqGoes(defs, f, 0, If(out), rest, [Flag(false)] + ([d, n] + ds), [d, n] + ds, []);
    }
  }

  lemma {:induction false} Leaves(f: nat, a: Stmt, b: Stmt, ds: seq<int>, r: seq<int>)
    ensures Eval(WORDS, [RNORMALIZE], f, 0, Atom(WExit), r, []) == Done(r, Returned)
    ensures Eval(WORDS, [RNORMALIZE], f, 0, a, ds, []) == Done(r, Returned) ==>
            Eval(WORDS, [RNORMALIZE], f, 0, Seq(a, b), ds, []) == Done(r, Returned)
  {}

  /** `2dup`, Euclid's loop and what follows it. */
  lemma {:induction false} LowestTermsRun(f: nat, n: int, d: int, ds: seq<int>)
    requires Small(n) && Small(d) && n != 0 && d != 0 && f >= Abs(d)
    ensures var r := R.Normal(n, d);
            Eval(WORDS, [RNORMALIZE], f, 0, Seq(P(TWODUP), Seq(EUCLID, Reduce(SIGNS))), [d, n] + ds, [])
            == Done([r.den, r.num] + ds, Fell)
  {
    hide Eval, Effect, Div, R.Euclid, R.Normal, R.Gcd;
    var g := R.Euclid(n, d);
    R.EuclidIsGcd(n, d);
    R.SignsMeet(n, d, g);
    var defs := [RNORMALIZE];
    Shuffles(0, n, d, ds);
    Goes(defs, f, 0, TWODUP, Seq(EUCLID, Reduce(SIGNS)), [d, n] + ds, [d, n, d, n] + ds, []);
    assert [d, n, d, n] + ds == [d, n] + ([d, n] + ds);
    EuclidRuns(f, n, d, [d, n] + ds);
    SeqGoes(defs, f, 0, EUCLID, Reduce(SIGNS), [d, n] + ([d, n] + ds), [g] + ([d, n] + ds), []);
    assert [g] + ([d, n] + ds) == [g, d, n] + ds;
    Divisions(f, n, d, g, SIGNS, ds);
    SignsGo(f, Div(n, g), Div(d, g), ds);
  }

  lemma {:induction false} InfiniteGoes(f: nat, n: int, ds: seq<int>)
    ensures Eval(WORDS, [RNORMALIZE], f, 0, INFINITE, [n] + ds, []) == Done([0, Sign(n)] + ds, Fell)
  {
    hide Eval, Effect;
    var defs := [RNORMALIZE];
    var sign := IfElse(Pair(R.INFINITY), Pair(R.MINUS_INFINITY));
    var body := IfElse(Seq(P(ZEROGREATER), sign), Pair(R.UNDEFINED));
    Shuffles(0, 0, n, ds);
    if n == 0 {
      Goes(defs, f, 0, QDUP, body, [n] + ds, [n] + ds, []);
      IfElseGoes(defs, f, 0, Seq(P(ZEROGREATER), sign), Pair(R.UNDEFINED), 0, ds, []);
      PairGoes(f, R.UNDEFINED, ds);
    } else {
      assert [n, n] + ds == [n] + ([n] + ds);
      Goes(defs, f, 0, QDUP, body, [n] + ds, [n] + ([n] + ds), []);
      IfElseGoes(defs, f, 0, Seq(P(ZEROGREATER), sign), Pair(R.UNDEFINED), n, [n] + ds, []);
      Unary(n, ds);
      Goes(defs, f, 0, ZEROGREATER, sign, [n] + ds, [Flag(n > 0)] + ds, []);
      IfElseGoes(defs, f, 0, Pair(R.INFINITY), Pair(R.MINUS_INFINITY), Flag(n > 0), ds, []);
      PairGoes(f, R.INFINITY, ds);
      PairGoes(f, R.MINUS_INFINITY, ds);
    }
  }

  /** The word ends at its end, or for zero by `exit`, with the normal form. */
  lemma {:induction false} RNormalizeRuns(f: nat, n: int, d: int, ds: seq<int>)
    requires Small(n) && Small(d) && f >= Abs(d)
    ensures var r := R.Normal(n, d);
            Enter(WORDS, [RNORMALIZE], f, 0, [d, n] + ds) == Done([r.den, r.num] + ds, Fell)
  {
    hide Eval, Effect, Enter, R.Gcd;
    var defs, s := [RNORMALIZE], [d, n] + ds;
    EntersBody(defs, f, 0, s);
    assert s == [d] + ([n] + ds);
    Shuffles(0, 0, d, [n] + ds);
    if d == 0 {
      Goes(defs, f, 0, QDUP, IfElse(FINITE, INFINITE), s, [d] + ([n] + ds), []);
      IfElseGoes(defs, f, 0, FINITE, INFINITE, 0, [n] + ds, []);
      InfiniteGoes(f, n, ds);
    } else {
      assert [d, d] + ([n] + ds) == [d] + s;
      Goes(defs, f, 0, QDUP, IfElse(FINITE, INFINITE), s, [d] + s, []);
      IfElseGoes(defs, f, 0, FINITE, INFINITE, d, s, []);
      ZeroLeaves(f, n, d, Seq(P(TWODUP), Seq(EUCLID, Reduce(SIGNS))), ds);
      if n != 0 { LowestTermsRun(f, n, d, ds); }
    }
  }

  lemma {:induction false} RNormalizeOk()
    ensures Ok(RNORMALIZE)
  {
    hide Ok;
    OkRules();
  }

  /** The compiled `rnormalize` leaves the normal form of every pair of cells, the least
      integer apart, whose negation and quotients do not fit. */
  lemma {:induction false} RNormalizeOnMachine(n: int, d: int, ds: seq<int>)
    requires Small(n) && Small(d)
    ensures var w, r := Compiled(WORDS, [RNORMALIZE]), R.Normal(n, d);
            |w.entry| > 0 && Reaches(w, Start(w, 0, [d, n] + ds), State(HALT, [r.den, r.num] + ds, []))
  {
    hide Eval, Enter, Sensible, Ok, Compiled, Reaches, R.Normal;
    var r := R.Normal(n, d);
    RNormalizeRuns(Abs(d), n, d, ds);
    RNormalizeOk();
    OkIsSensible([RNORMALIZE]);
    OnMachine([RNORMALIZE], Abs(d), 0, [d, n] + ds, [r.den, r.num] + ds);
  }
}
