/** Every derived word meets its specification: its body, run on the stacks with the words it
    calls replaced by their specifications, ends with the specified effect. */
module MinimalWords {
  import opened Arithmetic
  import opened Options
  import opened Cells
  import opened MinimalMachine

  function Start(ds: Stack): Data { Data(ds, Bottom, None) }

  /** The body ends, by its end or by EXIT, with these operands and an empty return stack. */
  predicate Ends(r: Outcome, ds: Stack) {
    (r.Fell? || r.Left?) && r.d.ds == ds && r.d.rs == Bottom
  }

  /** Where the specification promises something, the body delivers it within `f` turns. */
  predicate Meets(i: Image, w: Word, ds: Stack, f: nat) {
    Effect(w, ds).Some? ==> Ends(Exec(i, Body(w), Start(ds), f), Effect(w, ds).val)
  }

  lemma {:induction false} MinusSteps(x: Cell)
    ensures Plus(Not(x), 1) == Minus(x)
    ensures AbsCell(x) == if Signed(x) < 0 then Minus(x) else x
    ensures Not(Plus(Not(x), 1)) == Difference(x, 1) && Not(Plus(Not(x), 2)) == Difference(x, 2)
    ensures Plus(Plus(x, 1), 1) == Plus(x, 2) && Plus(Plus(Plus(x, 2), 1), 1) == Next(x)
  {
    hide Abs, AbsCell, Plus, Difference, Not, Next, Minus, Signed;
    AbsSteps(x);
    NotSteps(x);
    PlusSteps(x);
  }

  lemma {:induction false} AbsSteps(x: Cell)
    ensures AbsCell(x) == if Signed(x) < 0 then Minus(x) else x
  {}

  lemma {:induction false} NotSteps(x: Cell)
    ensures Plus(Not(x), 1) == Minus(x)
    ensures Not(Plus(Not(x), 1)) == Difference(x, 1) && Not(Plus(Not(x), 2)) == Difference(x, 2)
  {}

  lemma {:induction false} PlusSteps(x: Cell)
    ensures Plus(Plus(x, 1), 1) == Plus(x, 2) && Plus(Plus(Plus(x, 2), 1), 1) == Next(x)
  {
    PlusOnce(x, 1);
    PlusOnce(x, 2);
    PlusOnce(x, 3);
  }

  lemma {:induction false} PlusOnce(x: Cell, k: Cell)
    requires k < 4
    ensures Plus(Plus(x, k), 1) == Plus(x, k + 1)
  {}

  /** What `MIN-INT AND` and `XOR` tell about signs and equality. */
  lemma {:induction false} SignTests(x: Cell, y: Cell)
    ensures And(x, TOP) != 0 <==> Signed(x) < 0
    ensures Signed(Xor(x, y)) < 0 <==> (Signed(x) < 0) != (Signed(y) < 0)
    ensures Xor(x, y) == 0 <==> x == y
  {
    hide Bitwise, And, Xor;
    CellTests(x, y);
  }

  lemma {:induction false} PlusMinus(x: Cell, y: Cell)
    ensures Plus(x, Minus(y)) == Difference(x, y)
  {
  }

  lemma {:induction false} ProductSigns(x: Cell, y: Cell)
    ensures SignedProduct(x, y) ==
            var p := Product(AbsCell(x), AbsCell(y)); if (Signed(x) < 0) != (Signed(y) < 0) then Minus(p) else p
  {
    var a, b := Abs(Signed(x)), Abs(Signed(y));
    assert AbsCell(x) == a && AbsCell(y) == b;
    SignedTimes(Signed(x), Signed(y));
    MinusMod(a * b);
  }

  lemma {:induction false} SignedTimes(x: int, y: int)
    ensures x * y == var p := Abs(x) * Abs(y); if (x < 0) != (y < 0) then -p else p
  {}

  lemma {:induction false} MinusMod(p: int)
    ensures (M - p % M) % M == -p % M
  {}

  lemma {:induction false} DivisionSigns(x: Cell, y: Cell)
    requires y != 0
    ensures 0 < AbsCell(y) <= TOP && AbsCell(x) <= TOP
    ensures SignedQuotient(x, y) ==
            var q := UQuotient(AbsCell(x), AbsCell(y)); if (Signed(x) < 0) != (Signed(y) < 0) then Minus(q) else q
    ensures SignedRemainder(x, y) ==
            var r := URemainder(AbsCell(x), AbsCell(y)); if Signed(x) < 0 then Minus(r) else r
  {
    AbsParts(x);
    AbsParts(y);
    DivideParts(Signed(x), Signed(y), AbsCell(x), AbsCell(y));
    hide Div, Mod, UQuotient, URemainder, Signed, AbsCell;
    MinusOf(UQuotient(AbsCell(x), AbsCell(y)));
    MinusOf(URemainder(AbsCell(x), AbsCell(y)));
  }

  lemma {:induction false} AbsParts(x: Cell)
    ensures AbsCell(x) == Abs(Signed(x)) <= TOP && (x != 0 ==> Signed(x) != 0)
  {}

  lemma {:induction false} MinusOf(q: Cell)
    ensures Minus(q) == -(q as int) % M && q % M == q
  {}

  lemma {:induction false} DivideParts(x: int, y: int, a: Cell, b: Cell)
    requires y != 0 && a == Abs(x) && b == Abs(y)
    ensures Div(x, y) == if (x < 0) != (y < 0) then -(UQuotient(a, b) as int) else UQuotient(a, b)
    ensures Mod(x, y) == if x < 0 then -(URemainder(a, b) as int) else URemainder(a, b)
  {
    if x == 0 { ZeroQuotient(b); }
  }

  lemma {:induction false} ZeroQuotient(b: nat)
    requires b > 0
    ensures 0 / b == 0 && 0 % b == 0
  {}

  lemma {:induction false} DropMeets(i: Image, ds: Stack)
    requires TempCell(i) < M
    ensures Meets(i, DROP, ds, 0)
  {
    hide Bitwise, Nand, And, Or, Xor, Plus, Minus, Difference, Product, AbsCell;
    hide SignedProduct, UQuotient, URemainder, SignedQuotient, SignedRemainder, Signed, Negative, Not, Next;
  }

  lemma {:induction false} DupMeets(i: Image, ds: Stack)
    requires TempCell(i) < M
    ensures Meets(i, DUP, ds, 0)
  {
    hide Bitwise, Nand, And, Or, Xor, Plus, Minus, Difference, Product, AbsCell;
    hide SignedProduct, UQuotient, URemainder, SignedQuotient, SignedRemainder, Signed, Negative, Not, Next;
  }

  lemma {:induction false} SwapMeets(i: Image, ds: Stack)
    requires TempCell(i) < M
    ensures Meets(i, SWAP, ds, 0)
  {
    hide Bitwise, Nand, And, Or, Xor, Plus, Minus, Difference, Product, AbsCell;
    hide SignedProduct, UQuotient, URemainder, SignedQuotient, SignedRemainder, Signed, Negative, Not, Next;
  }

  lemma {:induction false} RotMeets(i: Image, ds: Stack)
    requires TempCell(i) < M
    ensures Meets(i, ROT, ds, 0)
  {
    hide Bitwise, Nand, And, Or, Xor, Plus, Minus, Difference, Product, AbsCell;
    hide SignedProduct, UQuotient, URemainder, SignedQuotient, SignedRemainder, Signed, Negative, Not, Next;
  }

  lemma {:induction false} OverMeets(i: Image, ds: Stack)
    requires TempCell(i) < M
    ensures Meets(i, OVER, ds, 0)
  {
    hide Bitwise, Nand, And, Or, Xor, Plus, Minus, Difference, Product, AbsCell;
    hide SignedProduct, UQuotient, URemainder, SignedQuotient, SignedRemainder, Signed, Negative, Not, Next;
  }

  lemma {:induction false} BooleanMeets(i: Image, ds: Stack)
    requires TempCell(i) < M
    ensures Meets(i, BOOLEAN, ds, 0)
  {
    hide Bitwise, Nand, And, Or, Xor, Plus, Minus, Difference, Product, AbsCell;
    hide SignedProduct, UQuotient, URemainder, SignedQuotient, SignedRemainder, Signed, Negative, Not, Next;
  }

  lemma {:induction false} NotMeets(i: Image, ds: Stack)
    requires TempCell(i) < M
    ensures Meets(i, NOT, ds, 0)
  {
    hide Bitwise, Nand, And, Or, Xor, Plus, Minus, Difference, Product, AbsCell;
    hide SignedProduct, UQuotient, URemainder, SignedQuotient, SignedRemainder, Signed, Negative, Not, Next;
    if ds.S? { NotIsNand(ds.top); }
  }

  lemma {:induction false} AndMeets(i: Image, ds: Stack)
    requires TempCell(i) < M
    ensures Meets(i, AND, ds, 0)
  {
    hide Bitwise, Nand, And, Or, Xor, Plus, Minus, Difference, Product, AbsCell;
    hide SignedProduct, UQuotient, URemainder, SignedQuotient, SignedRemainder, Signed, Negative, Not, Next;
    if Two(ds) { NandLogic(ds.below.top, ds.top); }
  }

  lemma {:induction false} OrMeets(i: Image, ds: Stack)
    requires TempCell(i) < M
    ensures Meets(i, OR, ds, 0)
  {
    hide Bitwise, Nand, And, Or, Xor, Plus, Minus, Difference, Product, AbsCell;
    hide SignedProduct, UQuotient, URemainder, SignedQuotient, SignedRemainder, Signed, Negative, Not, Next;
    if Two(ds) { NandLogic(ds.below.top, ds.top); }
  }

  lemma {:induction false} DecMeets(i: Image, ds: Stack)
    requires TempCell(i) < M
    ensures Meets(i, DEC, ds, 0)
  {
    hide Bitwise, Nand, And, Or, Xor, Plus, Minus, Difference, Product, AbsCell;
    hide SignedProduct, UQuotient, URemainder, SignedQuotient, SignedRemainder, Signed, Negative, Not, Next;
    if ds.S? { MinusSteps(ds.top); }
  }

  lemma {:induction false} TwoplusMeets(i: Image, ds: Stack)
    requires TempCell(i) < M
    ensures Meets(i, TWOPLUS, ds, 0)
  {
    hide Bitwise, Nand, And, Or, Xor, Plus, Minus, Difference, Product, AbsCell;
    hide SignedProduct, UQuotient, URemainder, SignedQuotient, SignedRemainder, Signed, Negative, Not, Next;
    if ds.S? { MinusSteps(ds.top); }
  }

  lemma {:induction false} TwominusMeets(i: Image, ds: Stack)
    requires TempCell(i) < M
    ensures Meets(i, TWOMINUS, ds, 0)
  {
    hide Bitwise, Nand, And, Or, Xor, Plus, Minus, Difference, Product, AbsCell;
    hide SignedProduct, UQuotient, URemainder, SignedQuotient, SignedRemainder, Signed, Negative, Not, Next;
    if ds.S? { MinusSteps(ds.top); }
  }

  lemma {:induction false} IsnegMeets(i: Image, ds: Stack)
    requires TempCell(i) < M
    ensures Meets(i, ISNEG, ds, 0)
  {
    hide Bitwise, Nand, And, Or, Xor, Plus, Minus, Difference, Product, AbsCell;
    hide SignedProduct, UQuotient, URemainder, SignedQuotient, SignedRemainder, Signed, Negative, Not, Next;
    if ds.S? { SignTests(ds.top, 0); }
  }

  lemma {:induction false} CellplusMeets(i: Image, ds: Stack)
    requires TempCell(i) < M
    ensures Meets(i, CELLPLUS, ds, 0)
  {
    hide Bitwise, Nand, And, Or, Xor, Plus, Minus, Difference, Product, AbsCell;
    hide SignedProduct, UQuotient, URemainder, SignedQuotient, SignedRemainder, Signed, Negative, Not, Next;
    if ds.S? { MinusSteps(ds.top); }
  }

  lemma {:induction false} QdupMeets(i: Image, ds: Stack)
    requires TempCell(i) < M
    ensures Meets(i, QDUP, ds, 0)
  {
    hide Bitwise, Nand, And, Or, Xor, Plus, Minus, Difference, Product, AbsCell;
    hide SignedProduct, UQuotient, URemainder, SignedQuotient, SignedRemainder, Signed, Negative, Not, Next;
  }

  lemma {:induction false} TuckMeets(i: Image, ds: Stack)
    requires TempCell(i) < M
    ensures Meets(i, TUCK, ds, 0)
  {
    hide Bitwise, Nand, And, Or, Xor, Plus, Minus, Difference, Product, AbsCell;
    hide SignedProduct, UQuotient, URemainder, SignedQuotient, SignedRemainder, Signed, Negative, Not, Next;
  }

  lemma {:induction false} NipMeets(i: Image, ds: Stack)
    requires TempCell(i) < M
    ensures Meets(i, NIP, ds, 0)
  {
    hide Bitwise, Nand, And, Or, Xor, Plus, Minus, Difference, Product, AbsCell;
    hide SignedProduct, UQuotient, URemainder, SignedQuotient, SignedRemainder, Signed, Negative, Not, Next;
  }

  lemma {:induction false} TwodupMeets(i: Image, ds: Stack)
    requires TempCell(i) < M
    ensures Meets(i, TWODUP, ds, 0)
  {
    hide Bitwise, Nand, And, Or, Xor, Plus, Minus, Difference, Product, AbsCell;
    hide SignedProduct, UQuotient, URemainder, SignedQuotient, SignedRemainder, Signed, Negative, Not, Next;
  }

  lemma {:induction false} TwodropMeets(i: Image, ds: Stack)
    requires TempCell(i) < M
    ensures Meets(i, TWODROP, ds, 0)
  {
    hide Bitwise, Nand, And, Or, Xor, Plus, Minus, Difference, Product, AbsCell;
    hide SignedProduct, UQuotient, URemainder, SignedQuotient, SignedRemainder, Signed, Negative, Not, Next;
  }

  lemma {:induction false} NegateMeets(i: Image, ds: Stack)
    requires TempCell(i) < M
    ensures Meets(i, NEGATE, ds, 0)
  {
    hide Bitwise, Nand, And, Or, Xor, Plus, Minus, Difference, Product, AbsCell;
    hide SignedProduct, UQuotient, URemainder, SignedQuotient, SignedRemainder, Signed, Negative, Not, Next;
    if ds.S? { MinusSteps(ds.top); }
  }

  lemma {:induction false} AbsMeets(i: Image, ds: Stack)
    requires TempCell(i) < M
    ensures Meets(i, ABS, ds, 0)
  {
    hide Bitwise, Nand, And, Or, Xor, Plus, Minus, Difference, Product, AbsCell;
    hide SignedProduct, UQuotient, URemainder, SignedQuotient, SignedRemainder, Signed, Negative, Not, Next;
    if ds.S? { MinusSteps(ds.top); }
  }

  lemma {:induction false} MinusMeets(i: Image, ds: Stack)
    requires TempCell(i) < M
    ensures Meets(i, MINUS, ds, 0)
  {
    hide Bitwise, Nand, And, Or, Xor, Plus, Minus, Difference, Product, AbsCell;
    hide SignedProduct, UQuotient, URemainder, SignedQuotient, SignedRemainder, Signed, Negative, Not, Next;
    if Two(ds) { PlusMinus(ds.below.top, ds.top); }
  }

  lemma {:induction false} EqualMeets(i: Image, ds: Stack)
    ensures Meets(i, EQUAL, ds, 0)
  {
    if Two(ds) {
      var x, y, r := ds.below.top, ds.top, ds.below.below;
      hide RunLine, Exec, Xor;
      EqualLine(i, x, y, r);
      AfterLine(i, T(W(XOR), T(W(BOOLEAN), T(W(NOT), End))), Stop, Start(ds), Start(S(Flag(x == y), r)), 0);
      AtEnd(i, Start(S(Flag(x == y), r)), 0);
    }
  }

  lemma {:induction false} EqualLine(i: Image, x: Cell, y: Cell, r: Stack)
    ensures RunLine(i, T(W(XOR), T(W(BOOLEAN), T(W(NOT), End))), Start(S(y, S(x, r)))) ==
            Some(Start(S(Flag(x == y), r)))
  {
    hide Bitwise, Nand, And, Or, Xor, Divides, Signed, AbsCell, Plus, Minus, Difference, Product, Next;
    hide SignedProduct, UQuotient, URemainder, SignedQuotient, SignedRemainder, Negative;
    SignTests(x, y);
  }

  lemma {:induction false} LessMeets(i: Image, ds: Stack)
    requires TempCell(i) < M
    ensures Meets(i, LESS, ds, 0)
  {
    hide Bitwise, Nand, And, Or, Xor, Plus, Minus, Difference, Product, AbsCell;
    hide SignedProduct, UQuotient, URemainder, SignedQuotient, SignedRemainder, Signed, Negative, Not, Next;
  }

  // ----- longer words, line by line -----

  lemma {:induction false} AfterLine(i: Image, ts: Toks, rest: Code, d: Data, d': Data, f: nat)
    requires RunLine(i, ts, d) == Some(d')
    ensures Exec(i, Line(ts, rest), d, f) == Exec(i, rest, d', f)
  {
    hide RunLine;
  }

  lemma {:induction false} AtEnd(i: Image, d: Data, f: nat)
    ensures Exec(i, Stop, d, f) == Fell(d)
  {}

  lemma {:induction false} XorLines(i: Image, x: Cell, y: Cell, r: Stack)
    ensures RunLine(i, T(W(OVER), T(W(OVER), T(W(NOT), T(NandT, T(ToR, T(W(SWAP), End)))))), Start(S(y, S(x, r)))) ==
            Some(Data(S(x, S(y, r)), S(Nand(x, Not(y)), Bottom), None))
    ensures RunLine(i, T(W(NOT), T(NandT, T(FromR, T(NandT, End)))),
                    Data(S(x, S(y, r)), S(Nand(x, Not(y)), Bottom), None)) ==
            Some(Data(S(Nand(Nand(y, Not(x)), Nand(x, Not(y))), r), Bottom, None))
  {
    hide Bitwise, Nand;
  }

  lemma {:induction false} XorMeets(i: Image, ds: Stack)
    ensures Meets(i, XOR, ds, 0)
  {
    if Two(ds) {
      var x, y, r := ds.below.top, ds.top, ds.below.below;
      hide Bitwise, Nand, Xor, RunLine, Exec;
      NandLogic(x, y);
      XorLines(i, x, y, r);
      var second := Line(T(W(NOT), T(NandT, T(FromR, T(NandT, End)))), Stop);
      var d1 := Data(S(x, S(y, r)), S(Nand(x, Not(y)), Bottom), None);
      AfterLine(i, T(W(OVER), T(W(OVER), T(W(NOT), T(NandT, T(ToR, T(W(SWAP), End)))))), second, Start(ds), d1, 0);
      var d2 := Data(S(Xor(x, y), r), Bottom, None);
      AfterLine(i, T(W(NOT), T(NandT, T(FromR, T(NandT, End)))), Stop, d1, d2, 0);
      AtEnd(i, d2, 0);
    }
  }

  lemma {:induction false} IsposMeets(i: Image, ds: Stack)
    ensures Meets(i, ISPOS, ds, 0)
  {
    if ds.S? {
      hide Exec, Body, Flag, Not, Signed;
      IsposMiddle(i, ds.top, ds.below);
      IsposEnd(i, ds.top, ds.below);
    }
  }

  lemma {:induction false} IsposEnd(i: Image, x: Cell, r: Stack)
    ensures Exec(i, Line(T(W(BOOLEAN), End), Stop), Start(S(Not(Flag(x == 0 || Signed(x) < 0)), r)), 0) ==
            Fell(Start(S(Flag(Signed(x) > 0), r)))
  {
    hide Bitwise, Or, Not, Signed, Effect, Flag, RunLine, Exec;
    OrFlags(x == 0, Signed(x) < 0);
    IsposLast(i, x, r);
    var d1, d2 := Start(S(Not(Flag(x == 0 || Signed(x) < 0)), r)), Start(S(Flag(Signed(x) > 0), r));
    AfterLine(i, T(W(BOOLEAN), End), Stop, d1, d2, 0);
    AtEnd(i, d2, 0);
  }

  /** `0>` up to its last word. */
  lemma {:induction false} IsposMiddle(i: Image, x: Cell, r: Stack)
    ensures Exec(i, Body(ISPOS), Start(S(x, r)), 0) ==
            Exec(i, Line(T(W(BOOLEAN), End), Stop), Start(S(Not(Flag(x == 0 || Signed(x) < 0)), r)), 0)
  {
    hide Bitwise, Or, Not, Signed, Effect, RunLine, Exec;
    OrFlags(x == 0, Signed(x) < 0);
    IsposLines(i, x, r);
    AfterLine(i, T(W(DUP), T(IsZero, T(W(SWAP), T(W(ISNEG), T(W(OR), T(W(NOT), End)))))),
              Line(T(W(BOOLEAN), End), Stop), Start(S(x, r)), Start(S(Not(Flag(x == 0 || Signed(x) < 0)), r)), 0);
  }

  lemma {:induction false} IsposLines(i: Image, x: Cell, r: Stack)
    requires Or(Flag(x == 0), Flag(Signed(x) < 0)) == Flag(x == 0 || Signed(x) < 0)
    ensures RunLine(i, T(W(DUP), T(IsZero, T(W(SWAP), T(W(ISNEG), T(W(OR), T(W(NOT), End)))))), Start(S(x, r))) ==
            Some(Data(S(Not(Flag(x == 0 || Signed(x) < 0)), r), Bottom, None))
  {
    hide Bitwise, Nand, And, Or, Xor, Plus, Minus, Difference, Product, AbsCell;
    hide SignedProduct, UQuotient, URemainder, SignedQuotient, SignedRemainder, Signed, Negative, Next;
  }

  lemma {:induction false} IsposLast(i: Image, x: Cell, r: Stack)
    ensures RunLine(i, T(W(BOOLEAN), End), Data(S(Not(Flag(x == 0 || Signed(x) < 0)), r), Bottom, None)) ==
            Some(Data(S(Flag(Signed(x) > 0), r), Bottom, None))
  {
    hide Bitwise, Signed;
    SignedZero(x);
  }

  lemma {:induction false} SignedZero(x: Cell)
    ensures Signed(x) > 0 <==> !(x == 0 || Signed(x) < 0)
  {}

  // Lines of `*` and `/MOD`
  lemma {:induction false} SignLine(i: Image, x: Cell, y: Cell, r: Stack)
    ensures RunLine(i, SignsDiffer(), Start(S(y, S(x, r)))) ==
            Some(Data(S(y, S(x, r)), S(Flag((Signed(x) < 0) != (Signed(y) < 0)), Bottom), None))
  {
    hide Bitwise, Xor, Signed, And, SignsDiffer, RunLine, Effect;
    SignTests(x, y);
    XorSignLine(i, x, y, r);
  }

  lemma {:induction false} XorSignLine(i: Image, x: Cell, y: Cell, r: Stack)
    ensures RunLine(i, SignsDiffer(), Start(S(y, S(x, r)))) ==
            Some(Data(S(y, S(x, r)), S(Flag(Signed(Xor(x, y)) < 0), Bottom), None))
  {
    hide Bitwise, Xor, Signed;
  }

  lemma {:induction false} MagnitudeLine(i: Image, x: Cell, y: Cell, r: Stack, rs: Stack)
    ensures RunLine(i, Magnitudes(), Data(S(y, S(x, r)), rs, None)) ==
            Some(Data(S(AbsCell(y), S(AbsCell(x), r)), rs, None))
  {
    hide AbsCell;
  }

  /** A conditional negation under a flag. */
  lemma {:induction false} NegateIf(i: Image, flag: bool, p: Cell, r: Stack, rs: Stack, t: Opt<Cell>, rest: Code,
                                    f: nat)
    ensures Exec(i, If(Negated(), rest), Data(S(Flag(flag), S(p, r)), rs, t), f) ==
            Exec(i, rest, Data(S(if flag then Minus(p) else p, r), rs, None), f)
  {
    hide Minus;
    var d := Data(S(p, r), rs, None);
    if flag { assert Exec(i, Negated(), d, f) == Fell(Data(S(Minus(p), r), rs, None)); }
  }

  lemma {:induction false} TimesMeets(i: Image, ds: Stack)
    ensures Meets(i, TIMES, ds, 0)
  {
    if Two(ds) {
      var x, y, r := ds.below.top, ds.top, ds.below.below;
      var flag := (Signed(x) < 0) != (Signed(y) < 0);
      var a, b := AbsCell(x), AbsCell(y);
      hide RunLine, Exec, Signed, AbsCell, Product, SignedProduct, Minus;
      SignLine(i, x, y, r);
      var rs := S(Flag(flag), Bottom);
      var last := Line(T(W(UTIMES), T(FromR, End)), If(Negated(), Stop));
      AfterLine(i, SignsDiffer(), Line(Magnitudes(), last), Start(ds), Data(ds, rs, None), 0);
      MagnitudeLine(i, x, y, r, rs);
      AfterLine(i, Magnitudes(), last, Data(ds, rs, None), Data(S(b, S(a, r)), rs, None), 0);
      ProductLine(i, a, b, r, Flag(flag));
      var d3 := Data(S(Flag(flag), S(Product(a, b), r)), Bottom, None);
      AfterLine(i, T(W(UTIMES), T(FromR, End)), If(Negated(), Stop), Data(S(b, S(a, r)), rs, None), d3, 0);
      NegateIf(i, flag, Product(a, b), r, Bottom, None, Stop, 0);
      ProductSigns(x, y);
      AtEnd(i, Data(S(SignedProduct(x, y), r), Bottom, None), 0);
    }
  }

  lemma {:induction false} ProductLine(i: Image, a: Cell, b: Cell, r: Stack, flag: Cell)
    ensures RunLine(i, T(W(UTIMES), T(FromR, End)), Data(S(b, S(a, r)), S(flag, Bottom), None)) ==
            Some(Data(S(flag, S(Product(a, b), r)), Bottom, None))
  {
    hide Product;
  }

  lemma {:induction false} DivmodMeets(i: Image, ds: Stack)
    ensures Meets(i, DIVMOD, ds, 0)
  {
    if Two(ds) && Effect(DIVMOD, ds).Some? {
      var x, y, r := ds.below.top, ds.top, ds.below.below;
      var flag, minus := (Signed(x) < 0) != (Signed(y) < 0), Signed(x) < 0;
      var a, b := AbsCell(x), AbsCell(y);
      assert y != 0;
      DivisionSigns(x, y);
      hide RunLine, Exec, Signed, AbsCell, UQuotient, URemainder, SignedQuotient, SignedRemainder, Minus;
      SignLine(i, x, y, r);
      var rs := S(Flag(flag), Bottom);
      var rs2 := S(Flag(minus), rs);
      var l2 := T(W(OVER), T(W(ISNEG), T(ToR, End)));
      AfterLine(i, SignsDiffer(), Line(l2, Line(Magnitudes(), DivideSigned())), Start(ds), Data(ds, rs, None), 0);
      DividendLine(i, x, y, r, rs);
      AfterLine(i, l2, Line(Magnitudes(), DivideSigned()), Data(ds, rs, None), Data(ds, rs2, None), 0);
      MagnitudeLine(i, x, y, r, rs2);
      AfterLine(i, Magnitudes(), DivideSigned(), Data(ds, rs2, None), Data(S(b, S(a, r)), rs2, None), 0);
      DivideSignedRuns(i, a, b, r, minus, flag);
    }
  }

  lemma {:induction false} DividendLine(i: Image, x: Cell, y: Cell, r: Stack, rs: Stack)
    ensures RunLine(i, T(W(OVER), T(W(ISNEG), T(ToR, End))), Data(S(y, S(x, r)), rs, None)) ==
            Some(Data(S(y, S(x, r)), S(Flag(Signed(x) < 0), rs), None))
  {
    hide Signed;
  }

  lemma {:induction false} DivideSignedRuns(i: Image, a: Cell, b: Cell, r: Stack, minus: bool, flag: bool)
    requires 0 < b <= TOP && a <= TOP
    ensures var q, m := UQuotient(a, b), URemainder(a, b);
            Ends(Exec(i, DivideSigned(), Data(S(b, S(a, r)), S(Flag(minus), S(Flag(flag), Bottom)), None), 0),
                 S(if minus then Minus(m) else m, S(if flag then Minus(q) else q, r)))
  {
    var q, m := UQuotient(a, b), URemainder(a, b);
    hide RunLine, Exec, UQuotient, URemainder, Minus;
    var rs := S(Flag(flag), Bottom);
    var l1 := T(W(UDIVMOD), T(FromR, End));
    var d1 := Data(S(Flag(minus), S(m, S(q, r))), rs, None);
    DivideLine(i, a, b, r, Flag(minus), rs);
    AfterLine(i, l1, If(Negated(), QuotientSign()), Data(S(b, S(a, r)), S(Flag(minus), rs), None), d1, 0);
    NegateIf(i, minus, m, S(q, r), rs, None, QuotientSign(), 0);
    QuotientSignRuns(i, if minus then Minus(m) else m, q, r, flag);
  }

  lemma {:induction false} DivideLine(i: Image, a: Cell, b: Cell, r: Stack, flag: Cell, rs: Stack)
    requires 0 < b <= TOP && a <= TOP
    ensures RunLine(i, T(W(UDIVMOD), T(FromR, End)), Data(S(b, S(a, r)), S(flag, rs), None)) ==
            Some(Data(S(flag, S(URemainder(a, b), S(UQuotient(a, b), r))), rs, None))
  {
    hide UQuotient, URemainder;
  }

  lemma {:induction false} QuotientSignRuns(i: Image, m: Cell, q: Cell, r: Stack, flag: bool)
    ensures Ends(Exec(i, QuotientSign(), Data(S(m, S(q, r)), S(Flag(flag), Bottom), None), 0),
                 S(m, S(if flag then Minus(q) else q, r)))
  {
    hide Minus;
  }

  // ----- words with loops -----

  lemma {:induction false} WhileTurn(i: Image, test: Toks, body: Toks, rest: Code, d: Data, d1: Data, d2: Data, f: nat)
    requires RunLine(i, test, d) == Some(d1) && d1.ds.S? && d1.ds.top != 0
    requires RunLine(i, body, Popped(d1)) == Some(d2) && f > 0
    ensures Exec(i, While(test, body, rest), d, f) == Exec(i, While(test, body, rest), d2, f - 1)
  {
    hide RunLine;
  }

  lemma {:induction false} WhileExit(i: Image, test: Toks, body: Toks, rest: Code, d: Data, d1: Data, f: nat)
    requires RunLine(i, test, d) == Some(d1) && d1.ds.S? && d1.ds.top == 0
    ensures Exec(i, While(test, body, rest), d, f) == Exec(i, rest, Popped(d1), f)
  {
    hide RunLine;
  }

  lemma {:induction false} DupTest(i: Image, x: Cell, r: Stack, rs: Stack, t: Opt<Cell>)
    ensures RunLine(i, T(W(DUP), End), Data(S(x, r), rs, t)) == Some(Data(S(x, S(x, r)), rs, None))
  {}

  lemma {:induction false} CountLines(i: Image, x: Cell, y: Cell, r: Stack)
    ensures RunLine(i, T(Inc, T(W(SWAP), T(W(DEC), T(W(SWAP), End)))), Start(S(y, S(x, r)))) ==
            Some(Start(S(Plus(y, 1), S(Difference(x, 1), r))))
    ensures RunLine(i, T(W(DEC), T(W(SWAP), T(Inc, T(W(SWAP), End)))), Start(S(y, S(x, r)))) ==
            Some(Start(S(Difference(y, 1), S(Plus(x, 1), r))))
  {
    hide Plus, Difference;
  }

  lemma {:induction false} CountFacts(x: Cell, y: Cell)
    ensures y == 0 ==> Plus(x, y) == x && Minus(y) == 0
    ensures y != 0 ==> Minus(Plus(y, 1)) == Minus(y) - 1 && Plus(Difference(x, 1), Plus(y, 1)) == Plus(x, y)
    ensures y != 0 ==> Difference(y, 1) == y - 1 && Plus(Plus(x, 1), Difference(y, 1)) == Plus(x, y)
  {
    if y != 0 {
      NegativeTurn(x, y);
      PositiveTurn(x, y);
    }
  }

  lemma {:induction false} NegativeTurn(x: Cell, y: Cell)
    requires y != 0
    ensures Minus(Plus(y, 1)) == Minus(y) - 1 && Plus(Difference(x, 1), Plus(y, 1)) == Plus(x, y)
  {
    assert Plus(y, 1) == if y == M - 1 then 0 else y + 1;
    assert Difference(x, 1) == if x == 0 then M - 1 else x - 1;
  }

  lemma {:induction false} PositiveTurn(x: Cell, y: Cell)
    requires y != 0
    ensures Difference(y, 1) == y - 1 && Plus(Plus(x, 1), Difference(y, 1)) == Plus(x, y)
  {}

  /** Negative `y`: counted up to zero while `x` is counted down. */
  lemma {:induction false} UpRuns(i: Image, x: Cell, y: Cell, r: Stack, f: nat)
    requires f >= Minus(y)
    ensures Exec(i, UpLoop(), Start(S(y, S(x, r))), f) == Fell(Start(S(0, S(Plus(x, y), r))))
    decreases Minus(y)
  {
    var body := T(Inc, T(W(SWAP), T(W(DEC), T(W(SWAP), End))));
    hide RunLine, Exec, Plus, Minus, Difference;
    CountFacts(x, y);
    DupTest(i, y, S(x, r), Bottom, None);
    var d1 := Data(S(y, S(y, S(x, r))), Bottom, None);
    if y == 0 {
      WhileExit(i, T(W(DUP), End), body, Stop, Start(S(y, S(x, r))), d1, f);
      AtEnd(i, Start(S(0, S(x, r))), f);
    } else {
      var y', x' := Plus(y, 1), Difference(x, 1);
      CountLines(i, x, y, r);
      WhileTurn(i, T(W(DUP), End), body, Stop, Start(S(y, S(x, r))), d1, Start(S(y', S(x', r))), f);
      UpRuns(i, x', y', r, f - 1);
    }
  }

  /** Otherwise: `y` down to zero while `x` is counted up. */
  lemma {:induction false} DownRuns(i: Image, x: Cell, y: Cell, r: Stack, f: nat)
    requires f >= y
    ensures Exec(i, DownLoop(), Start(S(y, S(x, r))), f) == Fell(Start(S(0, S(Plus(x, y), r))))
    decreases y
  {
    var body := T(W(DEC), T(W(SWAP), T(Inc, T(W(SWAP), End))));
    hide RunLine, Exec, Plus, Minus, Difference;
    CountFacts(x, y);
    DupTest(i, y, S(x, r), Bottom, None);
    var d1 := Data(S(y, S(y, S(x, r))), Bottom, None);
    if y == 0 {
      WhileExit(i, T(W(DUP), End), body, Stop, Start(S(y, S(x, r))), d1, f);
      AtEnd(i, Start(S(0, S(x, r))), f);
    } else {
      var y', x' := Difference(y, 1), Plus(x, 1);
      CountLines(i, x, y, r);
      WhileTurn(i, T(W(DUP), End), body, Stop, Start(S(y, S(x, r))), d1, Start(S(y', S(x', r))), f);
      DownRuns(i, x', y', r, f - 1);
    }
  }

  lemma {:induction false} SignTest(i: Image, x: Cell, r: Stack)
    ensures RunLine(i, T(W(DUP), T(W(ISNEG), End)), Start(S(x, r))) == Some(Start(S(Flag(Signed(x) < 0), S(x, r))))
    ensures RunLine(i, T(W(DROP), End), Start(S(x, r))) == Some(Start(r))
  {
    hide Signed;
  }

  /** `+` stops within as many turns as the magnitude of the second operand. */
  lemma {:induction false} PlusMeets(i: Image, ds: Stack)
    ensures Meets(i, PLUS, ds, 0x8000_0000)
  {
    if Two(ds) {
      var x, y, r := ds.below.top, ds.top, ds.below.below;
      assert Body(PLUS) == Line(T(W(DUP), T(W(ISNEG), End)), PlusLoops());
      assert Effect(PLUS, ds) == Some(S(Plus(x, y), r));
      hide *;
      SignTest(i, y, S(x, r));
      AfterLine(i, T(W(DUP), T(W(ISNEG), End)), PlusLoops(), Start(ds), Start(S(Flag(Signed(y) < 0), ds)), 0x8000_0000);
      PlusRuns(i, x, y, r);
      EndsFell(Start(S(Plus(x, y), r)), S(Plus(x, y), r));
      MeetsIf(i, PLUS, ds, 0x8000_0000);
    }
  }

  lemma {:induction false} EndsFell(d: Data, ds: Stack)
    requires d == Start(ds)
    ensures Ends(Fell(d), ds)
  {}

  lemma {:induction false} MeetsIf(i: Image, w: Word, ds: Stack, f: nat)
    requires Effect(w, ds).Some? && Ends(Exec(i, Body(w), Start(ds), f), Effect(w, ds).val)
    ensures Meets(i, w, ds, f)
  {}

  function PlusLoops(): Code { IfElse(UpLoop(), DownLoop(), Line(T(W(DROP), End), Stop)) }

  lemma {:induction false} PlusRuns(i: Image, x: Cell, y: Cell, r: Stack)
    ensures Exec(i, PlusLoops(), Start(S(Flag(Signed(y) < 0), S(y, S(x, r)))), 0x8000_0000) ==
            Fell(Start(S(Plus(x, y), r)))
  {
    var last := Line(T(W(DROP), End), Stop);
    assert Signed(y) < 0 ==> Minus(y) <= 0x8000_0000;
    assert Signed(y) >= 0 ==> y <= 0x8000_0000;
    hide RunLine, Exec, Plus, UpLoop, DownLoop, Signed;
    var ds := S(y, S(x, r));
    if Signed(y) < 0 { UpRuns(i, x, y, r, 0x8000_0000); } else { DownRuns(i, x, y, r, 0x8000_0000); }
    Chosen(i, UpLoop(), DownLoop(), last, ds, Signed(y) < 0, Start(S(0, S(Plus(x, y), r))), 0x8000_0000);
    SignTest(i, 0, S(Plus(x, y), r));
    AfterLine(i, T(W(DROP), End), Stop, Start(S(0, S(Plus(x, y), r))), Start(S(Plus(x, y), r)), 0x8000_0000);
    AtEnd(i, Start(S(Plus(x, y), r)), 0x8000_0000);
  }

  lemma {:induction false} Chosen(i: Image, thn: Code, els: Code, rest: Code, ds: Stack, flag: bool, d: Data, f: nat)
    requires Exec(i, if flag then thn else els, Start(ds), f) == Fell(d)
    ensures Exec(i, IfElse(thn, els, rest), Start(S(Flag(flag), ds)), f) == Exec(i, rest, d, f)
  {}

  lemma {:induction false} TimesLines(i: Image, n: Cell, a: Cell, y: Cell, r: Stack)
    ensures RunLine(i, T(W(DEC), T(W(SWAP), T(W(RFETCH), T(W(PLUS), T(W(SWAP), End))))),
                    Data(S(n, S(a, r)), S(y, Bottom), None)) ==
            Some(Data(S(Difference(n, 1), S(Plus(a, y), r)), S(y, Bottom), None))
  {
    hide Plus;
  }

  lemma {:induction false} TimesEnds(i: Image, n: Cell, a: Cell, y: Cell, r: Stack)
    ensures RunLine(i, T(FromR, T(W(TWODROP), End)), Data(S(n, S(a, r)), S(y, Bottom), None)) == Some(Start(S(a, r)))
    ensures RunLine(i, T(ToR, T(W(Zero), T(W(SWAP), End))), Start(S(y, S(n, r)))) ==
            Some(Data(S(n, S(0, r)), S(y, Bottom), None))
  {
    hide Plus;
  }

  lemma {:induction false} TimesRuns(i: Image, n: Cell, a: Cell, y: Cell, r: Stack, f: nat)
    requires f >= n
    ensures Exec(i, TimesLoop(), Data(S(n, S(a, r)), S(y, Bottom), None), f) ==
            Fell(Start(S(Plus(a, Product(n, y)), r)))
    decreases n
  {
    var test, body := T(W(DUP), End), T(W(DEC), T(W(SWAP), T(W(RFETCH), T(W(PLUS), T(W(SWAP), End)))));
    var last := Line(T(FromR, T(W(TWODROP), End)), Stop);
    hide RunLine, Exec, Plus, Product;
    var d := Data(S(n, S(a, r)), S(y, Bottom), None);
    DupTest(i, n, S(a, r), S(y, Bottom), None);
    TimesLines(i, n, a, y, r);
    TimesEnds(i, n, a, y, r);
    ProductStep(n, a, y);
    if n == 0 {
      WhileExit(i, test, body, last, d, d.(ds := S(n, d.ds)), f);
      AfterLine(i, T(FromR, T(W(TWODROP), End)), Stop, d, Start(S(a, r)), f);
      AtEnd(i, Start(S(a, r)), f);
    } else {
      var n' := Difference(n, 1);
      WhileTurn(i, test, body, last, d, d.(ds := S(n, d.ds)), d.(ds := S(n', S(Plus(a, y), r))), f);
      TimesRuns(i, n', Plus(a, y), y, r, f - 1);
    }
  }

  lemma {:induction false} ProductStep(n: Cell, a: Cell, y: Cell)
    ensures n == 0 ==> Plus(a, Product(n, y)) == a
    ensures n != 0 ==> Plus(Plus(a, y), Product(Difference(n, 1), y)) == Plus(a, Product(n, y))
  {
    OneLess(n, y);
    ZeroTimes(y);
    var p, p1 := n * y, (n - 1) * y;
    assert Product(n, y) == p % M && (n != 0 ==> Product(Difference(n, 1), y) == p1 % M);
    hide Product;
    SumSteps(a, y, p, p1);
  }

  lemma {:induction false} OneLess(n: int, y: int)
    ensures (n - 1) * y == n * y - y
  {}

  lemma {:induction false} ZeroTimes(y: int)
    ensures 0 * y == 0
  {}

  lemma {:induction false} SumSteps(a: Cell, y: Cell, p: int, p1: int)
    requires p1 == p - y
    ensures ((a + y) % M + p1 % M) % M == (a + p % M) % M
  {}

  lemma {:induction false} UtimesMeets(i: Image, ds: Stack)
    ensures Meets(i, UTIMES, ds, 0xFFFF_FFFF)
  {
    if Two(ds) {
      var x, y, r := ds.below.top, ds.top, ds.below.below;
      hide RunLine, Exec, Plus, Product;
      TimesEnds(i, x, 0, y, r);
      AfterLine(i, T(ToR, T(W(Zero), T(W(SWAP), End))), TimesLoop(), Start(ds),
                Data(S(x, S(0, r)), S(y, Bottom), None), 0xFFFF_FFFF);
      TimesRuns(i, x, 0, y, r, 0xFFFF_FFFF);
      PlusZero(Product(x, y));
    }
  }

  lemma {:induction false} PlusZero(a: Cell)
    ensures Plus(0, a) == a
  {}

  lemma {:induction false} DivideLines(i: Image, m: Cell, q: Cell, y: Cell, r: Stack)
    ensures RunLine(i, T(W(DUP), T(W(RFETCH), T(W(MINUS), T(W(DUP), T(W(ISNEG), T(W(NOT), End)))))),
                    Data(S(m, S(q, r)), S(y, Bottom), None)) ==
            Some(Data(S(Not(Flag(Signed(Difference(m, y)) < 0)), S(Difference(m, y), S(m, S(q, r)))), S(y, Bottom),
                      None))
  {
    hide Difference, Signed;
  }

  lemma {:induction false} DivideBody(i: Image, d: Cell, m: Cell, q: Cell, y: Cell, r: Stack)
    ensures RunLine(i, T(W(SWAP), T(W(DROP), T(W(SWAP), T(Inc, T(W(SWAP), End))))),
                    Data(S(d, S(m, S(q, r))), S(y, Bottom), None)) ==
            Some(Data(S(d, S(Plus(q, 1), r)), S(y, Bottom), None))
    ensures RunLine(i, T(FromR, T(W(TWODROP), End)), Data(S(d, S(m, S(q, r))), S(y, Bottom), None)) ==
            Some(Start(S(m, S(q, r))))
  {
  }

  /** The registers of the loop in `U/MOD`: remainder and quotient so far, the divisor. */
  function Dividing(m: Cell, q: Cell, y: Cell, r: Stack): Data { Data(S(m, S(q, r)), S(y, Bottom), None) }

  /** One turn of the loop in `U/MOD`. */
  lemma {:induction false} DivideTurn(i: Image, m: Cell, q: Cell, y: Cell, r: Stack, f: nat)
    ensures var e := Difference(m, y); var loop := Exec(i, DivideLoop(), Dividing(m, q, y, r), f);
            && (Signed(e) < 0 ==> loop == Fell(Start(S(m, S(q, r)))))
            && (Signed(e) >= 0 && f > 0 ==> loop == Exec(i, DivideLoop(), Dividing(e, Plus(q, 1), y, r), f - 1))
  {
    var test := T(W(DUP), T(W(RFETCH), T(W(MINUS), T(W(DUP), T(W(ISNEG), T(W(NOT), End))))));
    var body := T(W(SWAP), T(W(DROP), T(W(SWAP), T(Inc, T(W(SWAP), End)))));
    var last := Line(T(FromR, T(W(TWODROP), End)), Stop);
    hide RunLine, Exec, Plus;
    var d := Dividing(m, q, y, r);
    var e := Difference(m, y);
    var d1 := d.(ds := S(Not(Flag(Signed(e) < 0)), S(e, d.ds)));
    DivideLines(i, m, q, y, r);
    DivideBody(i, e, m, q, y, r);
    if Signed(e) < 0 {
      WhileExit(i, test, body, last, d, d1, f);
      AfterLine(i, T(FromR, T(W(TWODROP), End)), Stop, d.(ds := S(e, d.ds)), Start(d.ds), f);
      AtEnd(i, Start(d.ds), f);
    } else if f > 0 {
      WhileTurn(i, test, body, last, d, d1, Dividing(e, Plus(q, 1), y, r), f);
    }
  }

  lemma {:induction false} DivideRuns(i: Image, m: Cell, q: Cell, y: Cell, r: Stack, f: nat)
    requires y != 0 && Divides(m, y) && f >= m && q + m < M
    ensures Exec(i, DivideLoop(), Dividing(m, q, y, r), f) ==
            Fell(Start(S(URemainder(m, y), S(Plus(q, UQuotient(m, y)), r))))
    decreases m
  {
    hide RunLine, Exec, UQuotient, URemainder, Plus, Dividing;
    DivideTurn(i, m, q, y, r, f);
    DivideStep(m, q, y);
    if m >= y { DivideRuns(i, m - y, q + 1, y, r, f - 1); }
  }

  lemma {:induction false} DivideStep(m: Cell, q: Cell, y: Cell)
    requires y != 0 && Divides(m, y) && q + m < M
    ensures Signed(Difference(m, y)) < 0 <==> m < y
    ensures m < y ==> URemainder(m, y) == m && Plus(q, UQuotient(m, y)) == q
    ensures m >= y ==> Divides(m - y, y) && Difference(m, y) == m - y && Plus(q, 1) == q + 1
    ensures m >= y ==> URemainder(m, y) == URemainder(m - y, y)
    ensures m >= y ==> Plus(q, UQuotient(m, y)) == Plus(q + 1, UQuotient(m - y, y))
  {
    QuotientSmall(m, y);
    if m < y { SmallQuotient(m, y); } else { QuotientSmall(m - y, y); LessOne(m, y); }
  }

  lemma {:induction false} SmallQuotient(m: nat, y: nat)
    requires m < y
    ensures m / y == 0 && m % y == m
  {}

  lemma {:induction false} LessOne(m: nat, y: nat)
    requires 0 < y <= m
    ensures (m - y) / y + 1 == m / y && (m - y) % y == m % y
  {
    var k := m / y - 1 - (m - y) / y;
    QuotientSmall(m, y);
    QuotientSmall(m - y, y);
    assert k * y == (m - y) % y - m % y;
    Between(k, y);
  }

  lemma {:induction false} Between(k: int, y: nat)
    requires -(y as int) < k * y < y
    ensures k == 0
  {}

  lemma {:induction false} UdivmodMeets(i: Image, ds: Stack)
    ensures Meets(i, UDIVMOD, ds, 0xFFFF_FFFF)
  {
    if Two(ds) && Effect(UDIVMOD, ds).Some? {
      var x, y, r := ds.below.top, ds.top, ds.below.below;
      assert Divides(x, y);
      hide RunLine, Exec, Plus, UQuotient, URemainder;
      DivideBegins(i, x, y, r, 0xFFFF_FFFF);
      DivideRuns(i, x, 0, y, r, 0xFFFF_FFFF);
      PlusZero(UQuotient(x, y));
    }
  }

  lemma {:induction false} DivideBegins(i: Image, x: Cell, y: Cell, r: Stack, f: nat)
    ensures Exec(i, Body(UDIVMOD), Start(S(y, S(x, r))), f) == Exec(i, DivideLoop(), Dividing(x, 0, y, r), f)
  {
    hide RunLine, Exec;
    TimesEnds(i, x, 0, y, r);
    AfterLine(i, T(ToR, T(W(Zero), T(W(SWAP), End))), DivideLoop(), Start(S(y, S(x, r))), Dividing(x, 0, y, r), f);
  }

  /** A remainder more than 2^31 below the divisor: the difference looks positive, and the
      loop counts on until it does not. */
  lemma {:induction false} Overshoots(i: Image, m: Cell, q: Cell, y: Cell, r: Stack, f: nat)
    returns (m': Cell, q': Cell)
    requires TOP < y && m < y && f >= y - TOP - m && q + (y - TOP - m) < M
    ensures Exec(i, DivideLoop(), Dividing(m, q, y, r), f) == Fell(Start(S(m', S(q', r))))
    ensures if y > m + TOP then q' > q else q' == q
    decreases y - m
  {
    hide Exec, Dividing;
    DivideTurn(i, m, q, y, r, f);
    OvershootStep(m, q, y);
    if y > m + TOP {
      m', q' := Overshoots(i, m - y + M, q + 1, y, r, f - 1);
    } else {
      m', q' := m, q;
    }
  }

  lemma {:induction false} OvershootStep(m: Cell, q: Cell, y: Cell)
    requires TOP < y && m < y && q + (y - TOP - m) < M
    ensures Signed(Difference(m, y)) < 0 <==> y <= m + TOP
    ensures y > m + TOP ==> Difference(m, y) == m - y + M && m < m - y + M < TOP && Plus(q, 1) == q + 1
  {}

  /** `U/MOD` divides exactly where `Divides` says; elsewhere its quotient is wrong. */
  lemma {:induction false} UdivmodIffDivides(i: Image, x: Cell, y: Cell, r: Stack)
    requires y != 0
    ensures Ends(Exec(i, Body(UDIVMOD), Start(S(y, S(x, r))), 0xFFFF_FFFF), S(URemainder(x, y), S(UQuotient(x, y), r)))
            <==> Divides(x, y)
  {
    var ds := S(y, S(x, r));
    hide Exec, UQuotient, URemainder, Plus, Dividing;
    if Divides(x, y) {
      UdivmodMeets(i, ds);
    } else {
      var m, q := DividesWrongly(i, x, y, r);
      assert S(m, S(q, r)) != S(URemainder(x, y), S(UQuotient(x, y), r));
    }
  }

  /** Divided by one, 2^31 + 1 has the quotient 0. */
  lemma {:induction false} UdivmodFails(i: Image, r: Stack)
    ensures !Divides(TOP + 1, 1) && UQuotient(TOP + 1, 1) == TOP + 1
    ensures Exec(i, Body(UDIVMOD), Start(S(1, S(TOP + 1, r))), 0xFFFF_FFFF) == Fell(Start(S(TOP + 1, S(0, r))))
  {
    hide Exec, Dividing;
    DivideBegins(i, TOP + 1, 1, r, 0xFFFF_FFFF);
    DivideTurn(i, TOP + 1, 0, 1, r, 0xFFFF_FFFF);
  }

  lemma {:induction false} DividesWrongly(i: Image, x: Cell, y: Cell, r: Stack) returns (m: Cell, q: Cell)
    requires y != 0 && !Divides(x, y)
    ensures Exec(i, Body(UDIVMOD), Start(S(y, S(x, r))), 0xFFFF_FFFF) == Fell(Start(S(m, S(q, r)))) &&
            q != UQuotient(x, y)
  {
    hide Exec, Dividing;
    DivideBegins(i, x, y, r, 0xFFFF_FFFF);
    DivideTurn(i, x, 0, y, r, 0xFFFF_FFFF);
    if x < y {
      SmallQuotient(x, y);
      m, q := Overshoots(i, x, 0, y, r, 0xFFFF_FFFF);
    } else {
      LessOne(x, y);
      QuotientSmall(x - y, y);
      if y <= TOP {
        m, q := x, 0;
      } else {
        SmallQuotient(x - y, y);
        m, q := Overshoots(i, x - y, 1, y, r, 0xFFFF_FFFE);
      }
    }
  }

  /** One turn of `U<`. */
  lemma {:induction false} LessLines(i: Image, x: Cell, r: Stack, flag: Cell)
    ensures RunLine(i, T(W(DUP), End), Start(S(x, r))) == Some(Start(S(x, S(x, r))))
    ensures RunLine(i, T(W(DEC), End), Start(S(x, r))) == Some(Start(S(Difference(x, 1), r)))
    ensures RunLine(i, T(W(TWODROP), T(W(False0), End)), Start(S(x, S(flag, r)))) == Some(Start(S(FALSE, r)))
    ensures RunLine(i, T(W(TWODROP), T(W(True0), End)), Start(S(x, S(flag, r)))) == Some(Start(S(TRUE, r)))
  {}

  lemma {:induction false} LessSwaps(i: Image, x: Cell, y: Cell, r: Stack)
    ensures RunLine(i, T(W(SWAP), T(W(DUP), End)), Start(S(y, S(x, r)))) == Some(Start(S(x, S(x, S(y, r)))))
    ensures RunLine(i, T(W(SWAP), End), Start(S(x, S(y, r)))) == Some(Start(S(y, S(x, r))))
  {}

  lemma {:induction false} AtLeave(i: Image, d: Data, f: nat)
    ensures Exec(i, Leave, d, f) == Left(d)
  {}

  /** Both branches of a conditional, by its flag. */
  lemma {:induction false} Branches(i: Image, thn: Code, els: Code, rest: Code, x: Cell, ds: Stack, f: nat)
    ensures Exec(i, IfElse(thn, els, rest), Start(S(x, ds)), f) ==
            var r := Exec(i, if x != 0 then thn else els, Start(ds), f); if r.Fell? then Exec(i, rest, r.d, f) else r
  {}

  lemma {:induction false} DecOrLeave(i: Image, x: Cell, ds: Stack, other: Cell, r: Stack, w: Word, f: nat)
    requires ds == S(x, S(other, r)) && (w == False0 || w == True0)
    ensures Exec(i, if x != 0 then Line(T(W(DEC), End), Stop) else Line(T(W(TWODROP), T(W(w), End)), Leave),
                 Start(ds), f) ==
            if x != 0 then Fell(Start(S(Difference(x, 1), S(other, r)))) else Left(Start(S(ConstantOf(w), r)))
  {
    hide RunLine, Exec;
    LessLines(i, x, S(other, r), 0);
    LessLines(i, x, r, other);
    if x != 0 {
      var d := Start(S(Difference(x, 1), S(other, r)));
      AfterLine(i, T(W(DEC), End), Stop, Start(ds), d, f);
      AtEnd(i, d, f);
    } else {
      var d := Start(S(ConstantOf(w), r));
      AfterLine(i, T(W(TWODROP), T(W(w), End)), Leave, Start(ds), d, f);
      AtLeave(i, d, f);
    }
  }

  lemma {:induction false} LessTurn(i: Image, x: Cell, y: Cell, r: Stack, f: nat)
    ensures Exec(i, LessLoop().turn, Start(S(y, S(x, r))), f) ==
            if y == 0 then Left(Start(S(FALSE, r)))
            else if x == 0 then Left(Start(S(TRUE, r)))
            else Fell(Start(S(Difference(y, 1), S(Difference(x, 1), r))))
  {
    hide RunLine, Exec;
    var dec := Line(T(W(DEC), End), Stop);
    var no, yes := Line(T(W(TWODROP), T(W(False0), End)), Leave), Line(T(W(TWODROP), T(W(True0), End)), Leave);
    var ds := S(y, S(x, r));
    LessLines(i, y, S(x, r), 0);
    AfterLine(i, T(W(DUP), End), IfElse(dec, no, LessOther()), Start(ds), Start(S(y, ds)), f);
    Branches(i, dec, no, LessOther(), y, ds, f);
    DecOrLeave(i, y, ds, x, r, False0, f);
    if y != 0 {
      var y' := Difference(y, 1);
      var swap := Line(T(W(SWAP), End), Stop);
      LessSwaps(i, x, y', r);
      AfterLine(i, T(W(SWAP), T(W(DUP), End)), IfElse(dec, yes, swap), Start(S(y', S(x, r))),
                Start(S(x, S(x, S(y', r)))), f);
      Branches(i, dec, yes, swap, x, S(x, S(y', r)), f);
      DecOrLeave(i, x, S(x, S(y', r)), y', r, True0, f);
      if x != 0 {
        var x' := Difference(x, 1);
        LessSwaps(i, x', y', r);
        AfterLine(i, T(W(SWAP), End), Stop, Start(S(x', S(y', r))), Start(S(y', S(x', r))), f);
        AtEnd(i, Start(S(y', S(x', r))), f);
      }
    }
  }

  lemma {:induction false} LessRuns(i: Image, x: Cell, y: Cell, r: Stack, f: nat)
    requires f >= y
    ensures Exec(i, LessLoop(), Start(S(y, S(x, r))), f) == Left(Start(S(Flag(x < y), r)))
    decreases y
  {
    var turn := LessLoop().turn;
    assert LessLoop() == Forever(turn);
    hide LessLoop, RunLine;
    LessTurn(i, x, y, r, f);
    ForeverTurn(i, turn, Start(S(y, S(x, r))), f);
    if x != 0 && y != 0 { LessRuns(i, Difference(x, 1), Difference(y, 1), r, f - 1); }
  }

  lemma {:induction false} ForeverTurn(i: Image, turn: Code, d: Data, f: nat)
    ensures Exec(i, Forever(turn), d, f) ==
            var r := Exec(i, turn, d, f);
            if !r.Fell? then r else if f == 0 then Late else Exec(i, Forever(turn), r.d, f - 1)
  {}

  lemma {:induction false} UlessMeets(i: Image, ds: Stack)
    ensures Meets(i, ULESS, ds, 0xFFFF_FFFF)
  {
    if Two(ds) {
      hide Exec, RunLine, LessLoop;
      LessRuns(i, ds.below.top, ds.top, ds.below.below, 0xFFFF_FFFF);
    }
  }

  /** `<` compares through a difference that may overflow: it is the signed order exactly
      when the difference fits a cell. */
  lemma {:induction false} LessIffFits(x: Cell, y: Cell)
    ensures (Signed(Difference(x, y)) < 0 <==> Signed(x) < Signed(y)) <==> -TOP <= Signed(x) - Signed(y) < TOP
  {
  }

  /** The minimum integer is not less than one. */
  lemma {:induction false} LessFails(i: Image, r: Stack)
    requires TempCell(i) < M
    ensures Signed(TOP) < Signed(1)
    ensures Ends(Exec(i, Body(LESS), Start(S(1, S(TOP, r))), 0), S(FALSE, r))
  {
    var ds := S(1, S(TOP, r));
    LessMeets(i, ds);
    hide Exec, Body;
    assert Effect(LESS, ds) == Some(S(FALSE, r));
  }

  // ----- all of them -----

  predicate Ordinary(w: Word) { IsUnary(w) || IsBinary(w) || w.ROT? }

  /** Main lemma: every derived word meets its specification, its loops within 2^32 turns. */
  lemma {:induction false} WordMeets(i: Image, w: Word, ds: Stack) returns (f: nat)
    requires TempCell(i) < M && Ordinary(w)
    ensures Meets(i, w, ds, f) && f < M
  {
    f := if w.PLUS? then 0x8000_0000 else if w.ULESS? || w.UTIMES? || w.UDIVMOD? then 0xFFFF_FFFF else 0;
    hide Meets;
    match w
    case ULESS => UlessMeets(i, ds);
    case UTIMES => UtimesMeets(i, ds);
    case UDIVMOD => UdivmodMeets(i, ds);
    case PLUS => PlusMeets(i, ds);
    case DROP => DropMeets(i, ds);
    case DUP => DupMeets(i, ds);
    case SWAP => SwapMeets(i, ds);
    case ROT => RotMeets(i, ds);
    case OVER => OverMeets(i, ds);
    case BOOLEAN => BooleanMeets(i, ds);
    case NOT => NotMeets(i, ds);
    case AND => AndMeets(i, ds);
    case OR => OrMeets(i, ds);
    case XOR => XorMeets(i, ds);
    case DEC => DecMeets(i, ds);
    case TWOPLUS => TwoplusMeets(i, ds);
    case TWOMINUS => TwominusMeets(i, ds);
    case ISNEG => IsnegMeets(i, ds);
    case ISPOS => IsposMeets(i, ds);
    case CELLPLUS => CellplusMeets(i, ds);
    case QDUP => QdupMeets(i, ds);
    case TUCK => TuckMeets(i, ds);
    case NIP => NipMeets(i, ds);
    case TWODUP => TwodupMeets(i, ds);
    case TWODROP => TwodropMeets(i, ds);
    case NEGATE => NegateMeets(i, ds);
    case ABS => AbsMeets(i, ds);
    case MINUS => MinusMeets(i, ds);
    case TIMES => TimesMeets(i, ds);
    case DIVMOD => DivmodMeets(i, ds);
    case EQUAL => EqualMeets(i, ds);
    case LESS => LessMeets(i, ds);
  }
}
