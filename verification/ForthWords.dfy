/** Words of the kernel that work on the parameter stack alone, for programs that are run on
    the models of the interpreter: a semantics of plain words. */
module ForthWords {
  import opened Options
  import opened Arithmetic
  import opened ControlSyntax
  import opened ThreadedCode
  import opened Structured

  const DUP: nat := 0
  const QDUP: nat := 1
  const SWAP: nat := 2
  const OVER: nat := 3
  const ROT: nat := 4
  const DASHROT: nat := 5
  const NIP: nat := 6
  const TUCK: nat := 7
  const TWODUP: nat := 8
  const TWODROP: nat := 9
  const ONEPLUS: nat := 10
  const ONEMINUS: nat := 11
  const TWOMINUS: nat := 12
  const NEGATE: nat := 13
  const ZEROEQUALS: nat := 14
  const ZEROLESS: nat := 15
  const ZEROGREATER: nat := 16
  const PLUS: nat := 17
  const TIMES: nat := 18
  const DIVIDE: nat := 19
  const MOD: nat := 20
  const GREATER: nat := 21

  function Flag(b: bool): int { if b then -1 else 0 }

  /** How many cells a word takes. */
  function Needs(id: nat): nat {
    if id in {ROT, DASHROT} then 3
    else if id in {DUP, QDUP, ONEPLUS, ONEMINUS, TWOMINUS, NEGATE, ZEROEQUALS, ZEROLESS, ZEROGREATER} then 1
    else 2
  }

  /** The stack effect, top first; division by zero traps. */
  function Effect(id: nat, ds: seq<int>): Opt<seq<int>> {
    if |ds| < Needs(id) then None
    else if id == DUP then Some([ds[0]] + ds)
    else if id == QDUP then Some(if ds[0] != 0 then [ds[0]] + ds else ds)
    else if id == SWAP then Some([ds[1], ds[0]] + ds[2..])
    else if id == OVER then Some([ds[1]] + ds)
    else if id == ROT then Some([ds[2], ds[0], ds[1]] + ds[3..])
    else if id == DASHROT then Some([ds[1], ds[2], ds[0]] + ds[3..])
    else if id == NIP then Some([ds[0]] + ds[2..])
    else if id == TUCK then Some([ds[0], ds[1], ds[0]] + ds[2..])
    else if id == TWODUP then Some([ds[0], ds[1]] + ds)
    else if id == TWODROP then Some(ds[2..])
    else if id == ONEPLUS then Some([Wrap(ds[0] + 1)] + ds[1..])
    else if id == ONEMINUS then Some([Wrap(ds[0] - 1)] + ds[1..])
    else if id == TWOMINUS then Some([Wrap(ds[0] - 2)] + ds[1..])
    else if id == NEGATE then Some([Wrap(-ds[0])] + ds[1..])
    else if id == ZEROEQUALS then Some([Flag(ds[0] == 0)] + ds[1..])
    else if id == ZEROLESS then Some([Flag(ds[0] < 0)] + ds[1..])
    else if id == ZEROGREATER then Some([Flag(ds[0] > 0)] + ds[1..])
    else if id == PLUS then Some([Wrap(ds[1] + ds[0])] + ds[2..])
    else if id == TIMES then Some([Wrap(ds[1] * ds[0])] + ds[2..])
    else if id == DIVIDE then if ds[0] == 0 then None else Some([Wrap(Div(ds[1], ds[0]))] + ds[2..])
    else if id == MOD then if ds[0] == 0 then None else Some([Wrap(Mod(ds[1], ds[0]))] + ds[2..])
    else if id == GREATER then Some([Flag(ds[1] > ds[0])] + ds[2..])
    else None
  }

  /** What the words do over any `ds`, `c` being the top cell. */
  lemma {:induction false} Shuffles(a: int, b: int, c: int, ds: seq<int>)
    ensures Effect(DUP, [c] + ds) == Some([c, c] + ds)
    ensures Effect(QDUP, [c] + ds) == Some(if c != 0 then [c, c] + ds else [c] + ds)
    ensures Effect(SWAP, [c, b] + ds) == Some([b, c] + ds)
    ensures Effect(OVER, [c, b] + ds) == Some([b, c, b] + ds)
    ensures Effect(NIP, [c, b] + ds) == Some([c] + ds)
    ensures Effect(TUCK, [c, b] + ds) == Some([c, b, c] + ds)
    ensures Effect(TWODUP, [c, b] + ds) == Some([c, b, c, b] + ds)
    ensures Effect(TWODROP, [c, b] + ds) == Some(ds)
    ensures Effect(ROT, [c, b, a] + ds) == Some([a, c, b] + ds)
    ensures Effect(DASHROT, [c, b, a] + ds) == Some([b, a, c] + ds)
  {
    assert ([c, b] + ds)[2..] == ds;
    assert ([c, b, a] + ds)[3..] == ds;
    assert [c] + ([c] + ds) == [c, c] + ds;
    assert [b] + ([c, b] + ds) == [b, c, b] + ds;
    assert [c, b] + ([c, b] + ds) == [c, b, c, b] + ds;
  }

  lemma {:induction false} Unary(c: int, ds: seq<int>)
    ensures Effect(ONEPLUS, [c] + ds) == Some([Wrap(c + 1)] + ds)
    ensures Effect(ONEMINUS, [c] + ds) == Some([Wrap(c - 1)] + ds)
    ensures Effect(TWOMINUS, [c] + ds) == Some([Wrap(c - 2)] + ds)
    ensures Effect(NEGATE, [c] + ds) == Some([Wrap(-c)] + ds)
    ensures Effect(ZEROEQUALS, [c] + ds) == Some([Flag(c == 0)] + ds)
    ensures Effect(ZEROLESS, [c] + ds) == Some([Flag(c < 0)] + ds)
    ensures Effect(ZEROGREATER, [c] + ds) == Some([Flag(c > 0)] + ds)
  {
    hide Wrap;
    assert ([c] + ds)[1..] == ds;
  }

  lemma {:induction false} Binary(b: int, c: int, ds: seq<int>)
    ensures Effect(PLUS, [c, b] + ds) == Some([Wrap(b + c)] + ds)
    ensures Effect(TIMES, [c, b] + ds) == Some([Wrap(b * c)] + ds)
    ensures c != 0 ==> Effect(DIVIDE, [c, b] + ds) == Some([Wrap(Div(b, c))] + ds)
    ensures c != 0 ==> Effect(MOD, [c, b] + ds) == Some([Wrap(Mod(b, c))] + ds)
    ensures Effect(GREATER, [c, b] + ds) == Some([Flag(b > c)] + ds)
  {
    hide Wrap, Div, Mod;
    assert ([c, b] + ds)[2..] == ds;
  }

  /** The words of this module as plain words. */
  const WORDS: Sem := (id: nat, ds: seq<int>) => Effect(id, ds)

  lemma {:induction false} EffectStays(id: nat, ds: seq<int>, rest: seq<int>)
    requires Effect(id, ds).Some?
    ensures Effect(id, ds + rest) == Some(Effect(id, ds).val + rest)
  {
    hide Wrap, Div, Mod, Flag;
    assert (ds + rest)[1..] == ds[1..] + rest;
    Prepends(ds, rest);
    Prepends(ds[1..], rest);
    if |ds| >= 2 {
      assert (ds + rest)[2..] == ds[2..] + rest;
      Prepends(ds[2..], rest);
    }
    if |ds| >= 3 {
      assert (ds + rest)[3..] == ds[3..] + rest;
      Prepends(ds[3..], rest);
    }
  }

  lemma {:induction false} Prepends(s: seq<int>, rest: seq<int>)
    ensures forall x: seq<int> {:trigger x + s} :: (x + s) + rest == x + (s + rest)
  {
    forall x: seq<int> ensures (x + s) + rest == x + (s + rest) {}
  }

  // ----- in a definition -----

  function P(id: nat): Stmt { Atom(WPlain(id)) }

  /** A word alone, and in front of others. */
  lemma {:induction false} Goes(defs: seq<Stmt>, f: nat, self: nat, id: nat, rest: Stmt, ds: seq<int>,
                                ds': seq<int>, loops: seq<Loop>)
    requires Effect(id, ds) == Some(ds')
    ensures Eval(WORDS, defs, f, self, P(id), ds, loops) == Done(ds', Fell)
    ensures Eval(WORDS, defs, f, self, Seq(P(id), rest), ds, loops)
         == Eval(WORDS, defs, f, self, rest, ds', loops)
  {
    hide Effect;
    assert Eval(WORDS, defs, f, self, P(id), ds, loops) == Done(ds', Fell);
  }
}
