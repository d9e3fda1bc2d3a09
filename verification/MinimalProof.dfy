/** Running compiled words on the nine-instruction machine has the effect of structured
    evaluation; called words have their specified effects. */
module MinimalProof {
  import opened Options
  import opened Cells
  import opened MinimalMachine
  import opened MinimalWords

  /** The machine's stacks and memory are those of `d`, over the caller's return stack. */
  ghost predicate Live(i: Image, s: State, d: Data, base: Stack) {
    && s.ds == d.ds && s.rs == Join(d.rs, base) && base.S?
    && MemOk(i, s.mem) && (d.temp.Some? ==> s.mem[TempCell(i)] == d.temp.val)
  }

  /** The token is at the instruction pointer. */
  ghost predicate Ready(i: Image, s: State, v: Cell) {
    s.ip < 0xFFFF_FFF8 && CellAt(i, s.ip, v)
  }

  lemma {:induction false} Split(i: Image, a: int, x: seq<Cell>, y: seq<Cell>)
    requires CellsAt(i, a, x + y)
    ensures CellsAt(i, a, x) && CellsAt(i, a + 4 * |x|, y)
  {
    forall k | 0 <= k < |x| ensures CellAt(i, a + 4 * k, x[k]) { assert (x + y)[k] == x[k]; }
    forall k | 0 <= k < |y| ensures CellAt(i, a + 4 * |x| + 4 * k, y[k]) {
      assert (x + y)[|x| + k] == y[k];
      assert a + 4 * (|x| + k) == a + 4 * |x| + 4 * k;
    }
  }

  lemma {:induction false} FirstCell(i: Image, a: int, v: Cell, more: seq<Cell>)
    requires CellsAt(i, a, [v] + more)
    ensures 0 <= a < 0xFFFF_FFF8 && CellAt(i, a, v) && CellsAt(i, a + 4, more)
  {
    Split(i, a, [v], more);
    assert CellAt(i, a + 4 * 0, [v][0]);
  }

  lemma {:induction false} NextIs(a: Cell)
    requires a < 0xFFFF_FFF8
    ensures Next(a) == a + 4
  {}

  // ----- one instruction -----

  /** An instruction other than a call does to the machine what it does to the stacks. */
  lemma {:induction false} SimPlain(i: Image, k: Tok, d: Data, base: Stack, s0: State, s: State) returns (t: State)
    requires Loaded(i) && Live(i, s, d, base) && Ready(i, s, TokCell(i.place, k)) && Reaches(s0, s)
    requires !k.W? && Act(i, k, d).Some?
    ensures Reaches(s0, t) && t.ip == s.ip + 4 && Live(i, t, Act(i, k, d).val, base)
  {
    NextIs(s.ip);
    assert s.mem[s.ip] == TokCell(i.place, k);
    if k.StoreT? || k.FetchT? { StepMemory(i, k, d, base, s); } else { StepStacks(i, k, d, base, s); }
    hide Loaded, Live, Reaches, Step;
    t := Step(s).val;
    ReachStep(s0, s, t);
  }

  lemma {:induction false} StepStacks(i: Image, k: Tok, d: Data, base: Stack, s: State)
    requires Live(i, s, d, base) && s.ip in s.mem && s.mem[s.ip] == TokCell(i.place, k) && Next(s.ip) == s.ip + 4
    requires !k.W? && !k.StoreT? && !k.FetchT? && Act(i, k, d).Some?
    ensures Step(s).Some? && Step(s).val.ip == s.ip + 4 && Live(i, Step(s).val, Act(i, k, d).val, base)
  {
    hide MemOk, Plus, Flag, Nand, Next;
  }

  lemma {:induction false} StepMemory(i: Image, k: Tok, d: Data, base: Stack, s: State)
    requires Live(i, s, d, base) && s.ip in s.mem && s.mem[s.ip] == TokCell(i.place, k) && Next(s.ip) == s.ip + 4
    requires (k.StoreT? || k.FetchT?) && Act(i, k, d).Some?
    ensures Step(s).Some? && Step(s).val.ip == s.ip + 4 && Live(i, Step(s).val, Act(i, k, d).val, base)
  {
    JoinFull(d.rs, base);
    hide Join, Next;
  }

  /** A call: the return address on the return stack, the word's body next. */
  lemma {:induction false} SimCall(i: Image, w: Word, d: Data, base: Stack, s0: State, s: State) returns (t: State)
    requires Loaded(i) && Live(i, s, d, base) && Ready(i, s, i.place(w)) && Reaches(s0, s)
    ensures Reaches(s0, t) && t == State(i.place(w), s.ds, S(Next(s.ip), s.rs), s.mem)
  {
    assert i.place(w) > DUMP;
    assert s.ip in s.mem && s.mem[s.ip] == i.place(w);
    JoinFull(d.rs, base);
    hide Loaded, WordCells, CellsAt, MemOk, Reaches, Step;
    t := State(i.place(w), s.ds, S(Next(s.ip), s.rs), s.mem);
    StepCall(s, i.place(w));
    ReachStep(s0, s, t);
  }

  lemma {:induction false} StepCall(s: State, v: Cell)
    requires s.rs.S? && s.ip in s.mem && s.mem[s.ip] == v && v > DUMP
    ensures Step(s) == Some(State(v, s.ds, S(Next(s.ip), s.rs), s.mem))
  {}

  lemma {:induction false} JoinFull(a: Stack, base: Stack)
    requires base.S?
    ensures Join(a, base).S?
  {}

  /** `EXIT` */
  lemma {:induction false} SimExit(i: Image, s0: State, s: State, ret: Cell, rest: Stack) returns (t: State)
    requires MemOk(i, s.mem) && Ready(i, s, EXIT) && Reaches(s0, s) && s.rs == S(ret, rest)
    ensures Reaches(s0, t) && t == State(ret, s.ds, rest, s.mem)
  {
    assert s.mem[s.ip] == EXIT;
    t := Step(s).val;
    ReachStep(s0, s, t);
  }

  // ----- words that push an address or a constant -----

  /** `TEMP` pushes the address of its data cell. */
  lemma {:induction false} SimTemp(i: Image, d: Data, base: Stack, s0: State, s: State) returns (t: State)
    requires Loaded(i) && Live(i, s, d, base) && Ready(i, s, i.place(Temp)) && Reaches(s0, s)
    ensures Reaches(s0, t) && t.ip == s.ip + 4 && TempCell(i) < M && Live(i, t, d.(ds := S(TempCell(i), d.ds)), base)
  {
    hide Step, Emit, Reaches;
    NextIs(s.ip);
    var s1 := SimCall(i, Temp, d, base, s0, s);
    assert CellsAt(i, i.place(Temp), WordCells(i.place, Temp));
    FirstCell(i, i.place(Temp), i.place(VariableCode), []);
    NextIs(s1.ip);
    var d1 := Data(d.ds, Bottom, d.temp);
    var s2 := SimCall(i, VariableCode, d1, s1.rs, s0, s1);
    var s3 := SimVariable(i, d.ds, s2.rs, s0, s2);
    t := SimExit(i, s0, s3, s.ip + 4, s.rs);
  }

  lemma {:induction false} VariableCells(i: Image)
    ensures WordCells(i.place, VariableCode) == [FROMR] + [EXIT]
    ensures WordCells(i.place, ConstantCode) == [FROMR] + [FETCH, EXIT]
  {
    assert EmitLine(i.place, T(FromR, End)) == [FROMR];
    assert EmitLine(i.place, T(FetchT, End)) == [FETCH];
    assert EmitLine(i.place, T(FromR, T(FetchT, End))) == [FROMR] + [FETCH];
    assert Emit(i.place, Body(VariableCode), i.place(VariableCode)) == [FROMR] + [];
    assert Emit(i.place, Body(ConstantCode), i.place(ConstantCode)) == [FROMR] + [FETCH] + [];
  }

  lemma {:induction false} SimVariable(i: Image, ds: Stack, rs: Stack, s0: State, s: State) returns (t: State)
    requires Loaded(i) && MemOk(i, s.mem) && s.ip == i.place(VariableCode) && s.ds == ds && s.rs == rs && Two(rs)
    requires Reaches(s0, s)
    ensures Reaches(s0, t) && Ready(i, t, EXIT) && t.ds == S(rs.top, ds) && t.rs == rs.below && t.mem == s.mem
  {
    assert CellsAt(i, i.place(VariableCode), WordCells(i.place, VariableCode));
    VariableCells(i);
    hide Emit, WordCells;
    FirstCell(i, s.ip, FROMR, [EXIT]);
    assert [EXIT] == [EXIT] + [];
    FirstCell(i, s.ip + 4, EXIT, []);
    NextIs(s.ip);
    assert s.mem[s.ip] == FROMR;
    t := Step(s).val;
    ReachStep(s0, s, t);
  }

  /** A constant pushes the cell after its code. */
  lemma {:induction false} SimConstant(i: Image, w: Word, d: Data, base: Stack, s0: State, s: State) returns (t: State)
    requires Loaded(i) && IsConstant(w) && Live(i, s, d, base) && Ready(i, s, i.place(w)) && Reaches(s0, s)
    ensures Reaches(s0, t) && t.ip == s.ip + 4 && Live(i, t, d.(ds := S(ConstantOf(w), d.ds)), base)
  {
    hide Step, Emit, WordCells, Reaches, Loaded;
    NextIs(s.ip);
    ConstantShape(i, w);
    var a := i.place(w);
    var s1 := SimCall(i, w, d, base, s0, s);
    NextIs(a);
    var d1 := Data(d.ds, Bottom, d.temp);
    var s2 := SimCall(i, ConstantCode, d1, s1.rs, s0, s1);
    var s3 := SimFetchCode(i, d1, a + 4, s1.rs, s0, s2);
    t := SimExit(i, s0, s3, s.ip + 4, s.rs);
  }

  lemma {:induction false} ConstantShape(i: Image, w: Word)
    requires Loaded(i) && IsConstant(w)
    ensures i.place(w) < 0xFFFF_FFF8 && CellAt(i, i.place(w), i.place(ConstantCode)) &&
            CellAt(i, i.place(w) + 4, ConstantOf(w))
  {
    var a, v := i.place(w), ConstantOf(w);
    assert CellsAt(i, a, WordCells(i.place, w));
    assert WordCells(i.place, w) == [i.place(ConstantCode)] + [v];
    hide WordCells;
    FirstCell(i, a, i.place(ConstantCode), [v]);
    assert [v] == [v] + [];
    FirstCell(i, a + 4, v, []);
  }

  lemma {:induction false} SimFetchCode(i: Image, d: Data, a: Cell, base: Stack, s0: State, s: State) returns (t: State)
    requires Loaded(i) && d.rs == Bottom && base.S? && s.ip == i.place(ConstantCode) && s.rs == S(a, base)
    requires MemOk(i, s.mem) && s.ds == d.ds && a in i.mem && a != TempCell(i) && Reaches(s0, s)
    ensures Reaches(s0, t) && Ready(i, t, EXIT) && t.ds == S(i.mem[a], d.ds) && t.rs == base && t.mem == s.mem
  {
    assert CellsAt(i, i.place(ConstantCode), WordCells(i.place, ConstantCode));
    VariableCells(i);
    hide Emit, WordCells;
    FirstCell(i, s.ip, FROMR, [FETCH, EXIT]);
    assert [FETCH, EXIT] == [FETCH] + [EXIT];
    FirstCell(i, s.ip + 4, FETCH, [EXIT]);
    assert [EXIT] == [EXIT] + [];
    FirstCell(i, s.ip + 8, EXIT, []);
    NextIs(s.ip);
    assert s.mem[s.ip] == FROMR;
    var s1 := Step(s).val;
    ReachStep(s0, s, s1);
    NextIs(s1.ip);
    assert s1.mem[s1.ip] == FETCH;
    t := Step(s1).val;
    ReachStep(s0, s1, t);
  }

  // ----- code whose called words come before it -----

  /** Words that code only uses through control structures, variables and constants. */
  predicate UsesReturn(w: Word) { w.VariableCode? || w.ConstantCode? || w.BRANCH? || w.QBRANCH? }

  lemma {:induction false} WordKinds(w: Word)
    requires !UsesReturn(w)
    ensures Ordinary(w) || IsConstant(w) || w.Temp? || w.RFETCH?
  {}

  predicate LineBelow(ts: Toks, n: nat)
    decreases ts
  {
    match ts
    case End => true
    case T(t, more) => (t.W? ==> Rank(t.w) < n && !UsesReturn(t.w)) && LineBelow(more, n)
  }

  predicate Below(c: Code, n: nat)
    decreases c
  {
    match c
    case Stop => true
    case Leave => true
    case Line(ts, rest) => LineBelow(ts, n) && Below(rest, n)
    case If(thn, rest) => Rank(QBRANCH) < n && Below(thn, n) && Below(rest, n)
    case IfElse(thn, els, rest) => Rank(QBRANCH) < n && Below(thn, n) && Below(els, n) && Below(rest, n)
    case While(test, body, rest) => Rank(QBRANCH) < n && LineBelow(test, n) && LineBelow(body, n) && Below(rest, n)
    case Forever(turn) => Rank(QBRANCH) < n && Below(turn, n)
  }

  /** Cells of a line, and of structured code. */
  function LineSize(ts: Toks): nat { if ts.End? then 0 else 1 + LineSize(ts.more) }

  function CodeSize(c: Code): nat {
    match c
    case Stop => 0
    case Leave => 1
    case Line(ts, rest) => LineSize(ts) + CodeSize(rest)
    case If(thn, rest) => 2 + CodeSize(thn) + CodeSize(rest)
    case IfElse(thn, els, rest) => 4 + CodeSize(thn) + CodeSize(els) + CodeSize(rest)
    case While(test, body, rest) => 4 + LineSize(test) + LineSize(body) + CodeSize(rest)
    case Forever(turn) => 2 + CodeSize(turn)
  }

  /** Code made of words below `n`, and not long. */
  predicate Fits(c: Code, n: nat) { Below(c, n) && CodeSize(c) <= 64 }

  lemma {:induction false} FitsParts(c: Code, n: nat)
    requires Fits(c, n)
    ensures Below(c, n) && CodeSize(c) <= 64
  {}

  lemma {:induction false} Ranks()
    ensures Rank(VariableCode) == 0 && Rank(ConstantCode) == 1 && Rank(Temp) == 2 && Rank(DROP) == 3 && Rank(DUP) == 4
    ensures Rank(SWAP) == 5 && Rank(ROT) == 6 && Rank(OVER) == 7 && Rank(RFETCH) == 8
    ensures Rank(True0) == 9 && Rank(False0) == 10 && Rank(BOOLEAN) == 11 && Rank(NOT) == 12 && Rank(AND) == 13
    ensures Rank(OR) == 14 && Rank(XOR) == 15 && Rank(MinInt) == 16 && Rank(Zero) == 17
    ensures Rank(DEC) == 18 && Rank(TWOPLUS) == 19 && Rank(TWOMINUS) == 20 && Rank(ISNEG) == 21 && Rank(ISPOS) == 22
    ensures Rank(CELLPLUS) == 23 && Rank(BRANCH) == 24 && Rank(QBRANCH) == 25 && Rank(QDUP) == 26
    ensures Rank(TUCK) == 27 && Rank(NIP) == 28 && Rank(TWODUP) == 29 && Rank(TWODROP) == 30 && Rank(NEGATE) == 31
    ensures Rank(ABS) == 32 && Rank(PLUS) == 33 && Rank(MINUS) == 34 && Rank(ULESS) == 35
    ensures Rank(UTIMES) == 36 && Rank(UDIVMOD) == 37 && Rank(TIMES) == 38 && Rank(DIVMOD) == 39 && Rank(EQUAL) == 40
    ensures Rank(LESS) == 41
  {
    hide Rank;
    Ranks1();
    Ranks2();
    Ranks3();
    Ranks4();
    Ranks5();
    Ranks6();
  }

  lemma {:induction false} Ranks1()
    ensures Rank(VariableCode) == 0 && Rank(ConstantCode) == 1 && Rank(Temp) == 2 && Rank(DROP) == 3 && Rank(DUP) == 4
    ensures Rank(SWAP) == 5 && Rank(ROT) == 6 && Rank(OVER) == 7 && Rank(RFETCH) == 8
  {}

  lemma {:induction false} Ranks2()
    ensures Rank(True0) == 9 && Rank(False0) == 10 && Rank(BOOLEAN) == 11 && Rank(NOT) == 12 && Rank(AND) == 13
    ensures Rank(OR) == 14 && Rank(XOR) == 15 && Rank(MinInt) == 16 && Rank(Zero) == 17
  {}

  lemma {:induction false} Ranks3()
    ensures Rank(DEC) == 18 && Rank(TWOPLUS) == 19 && Rank(TWOMINUS) == 20 && Rank(ISNEG) == 21 && Rank(ISPOS) == 22
    ensures Rank(CELLPLUS) == 23 && Rank(BRANCH) == 24 && Rank(QBRANCH) == 25 && Rank(QDUP) == 26
  {}

  lemma {:induction false} Ranks4()
    ensures Rank(TUCK) == 27 && Rank(NIP) == 28 && Rank(TWODUP) == 29 && Rank(TWODROP) == 30 && Rank(NEGATE) == 31
  {}

  lemma {:induction false} Ranks5()
    ensures Rank(ABS) == 32 && Rank(PLUS) == 33 && Rank(MINUS) == 34 && Rank(ULESS) == 35
  {}

  lemma {:induction false} Ranks6()
    ensures Rank(UTIMES) == 36 && Rank(UDIVMOD) == 37 && Rank(TIMES) == 38 && Rank(DIVMOD) == 39 && Rank(EQUAL) == 40
    ensures Rank(LESS) == 41
  {}

  /** Each word is defined with earlier words only, in at most 64 cells. */
  lemma {:induction false} BodyBelow(w: Word)
    requires Ordinary(w) || w.RFETCH? || w.BRANCH? || w.QBRANCH?
    ensures Fits(Body(w), Rank(w))
  {
    hide Body, Fits, Rank;
    match w
    case DROP => BodyBelow1();
    case DUP => BodyBelow1();
    case SWAP => BodyBelow2();
    case ROT => BodyBelow2();
    case OVER => BodyBelow3();
    case BOOLEAN => BodyBelow3();
    case NOT => BodyBelow4();
    case AND => BodyBelow4();
    case OR => BodyBelow5();
    case XOR => XorBelow();
    case DEC => DecBelow();
    case TWOPLUS => TwoplusBelow();
    case TWOMINUS => TwominusBelow();
    case ISNEG => IsnegBelow();
    case ISPOS => IsposBelow();
    case CELLPLUS => CellplusBelow();
    case QDUP => QdupBelow();
    case TUCK => TuckBelow();
    case NIP => NipBelow();
    case TWODUP => TwodupBelow();
    case TWODROP => TwodropBelow();
    case NEGATE => NegateBelow();
    case ABS => AbsBelow();
    case PLUS => PlusBelow();
    case MINUS => MinusBelow();
    case ULESS => UlessBelow();
    case UTIMES => UtimesBelow();
    case UDIVMOD => UdivmodBelow();
    case TIMES => TimesBelow();
    case DIVMOD => DivmodBelow();
    case EQUAL => EqualBelow();
    case LESS => LessBelow();
    case RFETCH => BodyBelow5();
    case BRANCH => BodyBelow6();
    case QBRANCH => QbranchBelow();
  }

  lemma {:induction false} BodyBelow1()
    ensures Fits(Body(DROP), Rank(DROP)) && Fits(Body(DUP), Rank(DUP))
  {
    hide Rank;
    Ranks();
  }

  lemma {:induction false} BodyBelow2()
    ensures Fits(Body(SWAP), Rank(SWAP)) && Fits(Body(ROT), Rank(ROT))
  {
    hide Rank;
    Ranks();
  }

  lemma {:induction false} BodyBelow3()
    ensures Fits(Body(OVER), Rank(OVER)) && Fits(Body(BOOLEAN), Rank(BOOLEAN))
  {
    hide Rank;
    Ranks();
  }

  lemma {:induction false} BodyBelow4()
    ensures Fits(Body(NOT), Rank(NOT)) && Fits(Body(AND), Rank(AND))
  {
    hide Rank;
    Ranks();
  }

  lemma {:induction false} BodyBelow5()
    ensures Fits(Body(OR), Rank(OR)) && Fits(Body(RFETCH), Rank(RFETCH))
  {
    hide Rank;
    Ranks();
  }

  lemma {:induction false} BodyBelow6()
    ensures Fits(Body(BRANCH), Rank(BRANCH))
  {
    hide Rank;
    Ranks();
  }

  lemma {:induction false} XorBelow()
    ensures Fits(Body(XOR), Rank(XOR))
  {
    hide Rank;
    Ranks();
  }

  lemma {:induction false} DecBelow()
    ensures Fits(Body(DEC), Rank(DEC))
  {
    hide Rank;
    Ranks();
  }

  lemma {:induction false} TwoplusBelow()
    ensures Fits(Body(TWOPLUS), Rank(TWOPLUS))
  {
    hide Rank;
    Ranks();
  }

  lemma {:induction false} TwominusBelow()
    ensures Fits(Body(TWOMINUS), Rank(TWOMINUS))
  {
    hide Rank;
    Ranks();
  }

  lemma {:induction false} IsnegBelow()
    ensures Fits(Body(ISNEG), Rank(ISNEG))
  {
    hide Rank;
    Ranks();
  }

  lemma {:induction false} IsposBelow()
    ensures Fits(Body(ISPOS), Rank(ISPOS))
  {
    hide Rank;
    Ranks();
  }

  lemma {:induction false} CellplusBelow()
    ensures Fits(Body(CELLPLUS), Rank(CELLPLUS))
  {
    hide Rank;
    Ranks();
  }

  lemma {:induction false} QdupBelow()
    ensures Fits(Body(QDUP), Rank(QDUP))
  {
    hide Rank;
    Ranks();
  }

  lemma {:induction false} TuckBelow()
    ensures Fits(Body(TUCK), Rank(TUCK))
  {
    hide Rank;
    Ranks();
  }

  lemma {:induction false} NipBelow()
    ensures Fits(Body(NIP), Rank(NIP))
  {
    hide Rank;
    Ranks();
  }

  lemma {:induction false} TwodupBelow()
    ensures Fits(Body(TWODUP), Rank(TWODUP))
  {
    hide Rank;
    Ranks();
  }

  lemma {:induction false} TwodropBelow()
    ensures Fits(Body(TWODROP), Rank(TWODROP))
  {
    hide Rank;
    Ranks();
  }

  lemma {:induction false} NegateBelow()
    ensures Fits(Body(NEGATE), Rank(NEGATE))
  {
    hide Rank;
    Ranks();
  }

  lemma {:induction false} AbsBelow()
    ensures Fits(Body(ABS), Rank(ABS))
  {
    hide Rank;
    Ranks();
  }

  lemma {:induction false} PlusBelow()
    ensures Fits(Body(PLUS), Rank(PLUS))
  {
    hide Rank;
    Ranks();
  }

  lemma {:induction false} MinusBelow()
    ensures Fits(Body(MINUS), Rank(MINUS))
  {
    hide Rank;
    Ranks();
  }

  lemma {:induction false} UlessBelow()
    ensures Fits(Body(ULESS), Rank(ULESS))
  {
    hide Rank;
    Ranks();
    LessOtherBelow();
    hide LessOther;
  }

  lemma {:induction false} LessOtherBelow()
    ensures Below(LessOther(), Rank(ULESS)) && CodeSize(LessOther()) <= 20
  {
    hide Rank;
    Ranks();
  }

  lemma {:induction false} UtimesBelow()
    ensures Fits(Body(UTIMES), Rank(UTIMES))
  {
    hide Rank;
    Ranks();
  }

  lemma {:induction false} UdivmodBelow()
    ensures Fits(Body(UDIVMOD), Rank(UDIVMOD))
  {
    hide Rank;
    Ranks();
    DivideLoopBelow();
    hide DivideLoop;
  }

  lemma {:induction false} DivideLoopBelow()
    ensures Below(DivideLoop(), Rank(UDIVMOD)) && CodeSize(DivideLoop()) <= 20
  {
    hide Rank;
    Ranks();
  }

  lemma {:induction false} TimesBelow()
    ensures Fits(Body(TIMES), Rank(TIMES))
  {
    hide Rank;
    Ranks();
  }

  lemma {:induction false} DivmodBelow()
    ensures Fits(Body(DIVMOD), Rank(DIVMOD))
  {
    hide *;
    var n := Rank(DIVMOD);
    DivideSignedBelow();
    MagnitudesBelow();
    BelowLine(Magnitudes(), DivideSigned(), n);
    SignOfDividendBelow();
    BelowLine(T(W(OVER), T(W(ISNEG), T(ToR, End))), Line(Magnitudes(), DivideSigned()), n);
    SignsDifferBelow();
    BelowLine(SignsDiffer(), Line(T(W(OVER), T(W(ISNEG), T(ToR, End))), Line(Magnitudes(), DivideSigned())), n);
    DivmodFits();
  }

  lemma {:induction false} DivmodFits()
    ensures Fits(Body(DIVMOD), Rank(DIVMOD)) <==>
            var c := Line(SignsDiffer(),
                          Line(T(W(OVER), T(W(ISNEG), T(ToR, End))), Line(Magnitudes(), DivideSigned())));
            Below(c, Rank(DIVMOD)) && CodeSize(c) <= 64
  {
    hide Below, CodeSize, Rank;
  }

  lemma {:induction false} BelowLine(ts: Toks, rest: Code, n: nat)
    requires LineBelow(ts, n) && Below(rest, n)
    ensures Below(Line(ts, rest), n) && CodeSize(Line(ts, rest)) == LineSize(ts) + CodeSize(rest)
  {}

  lemma {:induction false} SignsDifferBelow()
    ensures LineBelow(SignsDiffer(), Rank(DIVMOD)) && LineSize(SignsDiffer()) == 4
  {
    hide Rank;
    Ranks();
  }

  lemma {:induction false} SignOfDividendBelow()
    ensures var ts := T(W(OVER), T(W(ISNEG), T(ToR, End))); LineBelow(ts, Rank(DIVMOD)) && LineSize(ts) == 3
  {
    hide Rank;
    Ranks();
  }

  lemma {:induction false} MagnitudesBelow()
    ensures LineBelow(Magnitudes(), Rank(DIVMOD)) && LineSize(Magnitudes()) == 4
  {
    hide Rank;
    Ranks();
  }

  lemma {:induction false} DivideSignedBelow()
    ensures Below(DivideSigned(), Rank(DIVMOD)) && CodeSize(DivideSigned()) <= 20
  {
    hide Rank;
    Ranks();
  }

  lemma {:induction false} EqualBelow()
    ensures Fits(Body(EQUAL), Rank(EQUAL))
  {
    hide Rank;
    Ranks();
  }

  lemma {:induction false} LessBelow()
    ensures Fits(Body(LESS), Rank(LESS))
  {
    hide Rank;
    Ranks();
  }

  lemma {:induction false} QbranchBelow()
    ensures Fits(Body(QBRANCH), Rank(QBRANCH))
  {
    hide Rank;
    Ranks();
  }

  // ----- the words that use their return address -----

  lemma {:induction false} RFetchRuns(i: Image, ds: Stack, ret: Cell, x: Cell, t: Opt<Cell>)
    requires TempCell(i) < M
    ensures Exec(i, Body(RFETCH), Data(ds, S(ret, S(x, Bottom)), t), 0) ==
            Fell(Data(S(x, ds), S(ret, S(x, Bottom)), None))
  {}

  lemma {:induction false} BranchRuns(i: Image, ds: Stack, ret: Cell, t: Opt<Cell>)
    requires ret in i.mem && ret != TempCell(i)
    ensures Exec(i, Body(BRANCH), Data(ds, S(ret, Bottom), t), 0) == Fell(Data(ds, S(i.mem[ret], Bottom), t))
  {}

  /** The mask built from the flag picks the branch target or the cell after it. */
  lemma {:induction false} QBranchRuns(i: Image, x: Cell, r: Stack, ret: Cell, t: Opt<Cell>)
    requires ret in i.mem && ret != TempCell(i)
    ensures Exec(i, Body(QBRANCH), Data(S(x, r), S(ret, Bottom), t), 0) ==
            Fell(Data(r, S(if x == 0 then i.mem[ret] else Next(ret), Bottom), None))
  {
    var flag, to := Flag(x == 0), i.mem[ret];
    var first := T(IsZero, T(W(DUP), T(W(RFETCH), T(FetchT, T(W(AND), T(W(SWAP), End))))));
    var second := T(W(NOT), T(FromR, T(W(CELLPLUS), T(W(AND), T(W(OR), T(ToR, End))))));
    assert Body(QBRANCH) == Line(first, Line(second, Stop));
    hide *;
    QBranchLine1(i, x, r, ret, t);
    QBranchLine2(i, flag, And(flag, to), r, ret);
    var d0, d1 := Data(S(x, r), S(ret, Bottom), t), Data(S(flag, S(And(flag, to), r)), S(ret, Bottom), None);
    var d2 := Data(r, S(Or(And(flag, to), And(Not(flag), Next(ret))), Bottom), None);
    AfterLine(i, first, Line(second, Stop), d0, d1, 0);
    AfterLine(i, second, Stop, d1, d2, 0);
    AtEnd(i, d2, 0);
    Select(x == 0, to, Next(ret));
  }

  lemma {:induction false} QBranchLine1(i: Image, x: Cell, r: Stack, ret: Cell, t: Opt<Cell>)
    requires ret in i.mem && ret != TempCell(i)
    ensures RunLine(i, T(IsZero, T(W(DUP), T(W(RFETCH), T(FetchT, T(W(AND), T(W(SWAP), End)))))),
                    Data(S(x, r), S(ret, Bottom), t)) ==
            Some(Data(S(Flag(x == 0), S(And(Flag(x == 0), i.mem[ret]), r)), S(ret, Bottom), None))
  {
    hide And, Flag, Bitwise;
  }

  lemma {:induction false} QBranchLine2(i: Image, flag: Cell, masked: Cell, r: Stack, ret: Cell)
    ensures RunLine(i, T(W(NOT), T(FromR, T(W(CELLPLUS), T(W(AND), T(W(OR), T(ToR, End)))))),
                    Data(S(flag, S(masked, r)), S(ret, Bottom), None)) ==
            Some(Data(r, S(Or(masked, And(Not(flag), Next(ret))), Bottom), None))
  {
    hide And, Or, Not, Next, Bitwise;
  }

  // ----- facts the simulation is built from -----

  lemma {:induction false} LiveParts(i: Image, s: State, d: Data, base: Stack)
    requires Live(i, s, d, base)
    ensures s.ds == d.ds && s.rs == Join(d.rs, base) && base.S? && s.rs.S? && MemOk(i, s.mem)
  {
    JoinFull(d.rs, base);
  }

  /** Just called: an empty return stack, or one with the return address, over the caller's. */
  lemma {:induction false} LiveCalled(i: Image, s: State, d: Data, base: Stack, s1: State)
    requires Live(i, s, d, base) && s1.ds == s.ds && s1.rs.S? && s1.rs.below == s.rs && s1.mem == s.mem
    ensures Live(i, s1, Start(d.ds), s1.rs)
    ensures Live(i, s1, Data(d.ds, S(s1.rs.top, Bottom), d.temp), s.rs)
    ensures d.rs.S? ==>
              && Join(d.rs.below, base).S? && s.rs == S(d.rs.top, Join(d.rs.below, base))
              && Live(i, s1, Data(d.ds, S(s1.rs.top, S(d.rs.top, Bottom)), d.temp), Join(d.rs.below, base))
  {
    JoinFull(d.rs, base);
    JoinBottom(Bottom, s1.rs);
    JoinBottom(S(s1.rs.top, Bottom), s.rs);
    JoinBottom(Bottom, s.rs);
    if d.rs.S? {
      var under := Join(d.rs.below, base);
      JoinFull(d.rs.below, base);
      JoinBottom(S(s1.rs.top, S(d.rs.top, Bottom)), under);
      JoinBottom(S(d.rs.top, Bottom), under);
      JoinBottom(Bottom, under);
    }
    hide Join;
  }

  lemma {:induction false} LiveReturned(i: Image, s: State, d: Data, base: Stack, s1: State, d1: Data)
    requires Live(i, s, d, base) && s1.ds == d1.ds && s1.rs == s.rs && MemOk(i, s1.mem)
    requires d1.temp.Some? ==> s1.mem[TempCell(i)] == d1.temp.val
    requires d1.rs == d.rs
    ensures Live(i, s1, d1, base)
  {}

  lemma {:induction false} MeetsParts(i: Image, w: Word, ds: Stack, f: nat)
    requires Meets(i, w, ds, f) && Effect(w, ds).Some?
    ensures var r := Exec(i, Body(w), Start(ds), f);
            (r.Fell? || r.Left?) && r.d.ds == Effect(w, ds).val && r.d.rs == Bottom
  {}

  lemma {:induction false} Bounds(i: Image, a: int, cells: seq<Cell>)
    requires CellsAt(i, a, cells)
    ensures 0 <= a && a + 4 * |cells| <= 0xFFFF_FFF8
  {}

  lemma {:induction false} PlaceOf(i: Image, w: Word)
    requires Loaded(i)
    ensures CellsAt(i, i.place(w), WordCells(i.place, w)) && TempCell(i) < M
  {}

  lemma {:induction false} InRange(x: int)
    requires 0 <= x < 0x1_0000_0000
    ensures Target(x) == x
  {}

  lemma {:induction false} IfParts(i: Image, thn: Code, rest: Code, d: Data, f: nat, n: nat, a: int)
    requires Below(If(thn, rest), n)
    ensures Rank(QBRANCH) < n && Below(thn, n) && Below(rest, n)
    ensures var x := Emit(i.place, thn, a + 8); var b := a + 8 + 4 * |x|;
            Emit(i.place, If(thn, rest), a) == [i.place(QBRANCH), Target(b)] + x + Emit(i.place, rest, b)
    ensures d.ds.Bottom? ==> Exec(i, If(thn, rest), d, f) == Wrong
    ensures d.ds.S? && d.ds.top == 0 ==> Exec(i, If(thn, rest), d, f) == Exec(i, rest, Popped(d), f)
    ensures d.ds.S? && d.ds.top != 0 ==>
              Exec(i, If(thn, rest), d, f) ==
              (var r := Exec(i, thn, Popped(d), f); if r.Fell? then Exec(i, rest, r.d, f) else r)
  {
    IfEmits(i, thn, rest, a);
    hide Popped, Emit;
  }

  lemma {:induction false} IfEmits(i: Image, thn: Code, rest: Code, a: int)
    ensures var x := Emit(i.place, thn, a + 8); var b := a + 8 + 4 * |x|;
            Emit(i.place, If(thn, rest), a) == [i.place(QBRANCH), Target(b)] + x + Emit(i.place, rest, b)
  {}

  lemma {:induction false} IfElseParts(i: Image, thn: Code, els: Code, rest: Code, n: nat, a: int)
    requires Below(IfElse(thn, els, rest), n)
    ensures Rank(BRANCH) < Rank(QBRANCH) < n && Below(thn, n) && Below(els, n) && Below(rest, n)
    ensures var x := Emit(i.place, thn, a + 8); var b := a + 16 + 4 * |x|;
            var y := Emit(i.place, els, b); var e := b + 4 * |y|;
            Emit(i.place, IfElse(thn, els, rest), a) ==
            [i.place(QBRANCH), Target(b)] + x + ([i.place(BRANCH), Target(e)] + y + Emit(i.place, rest, e))
  {
    IfElseEmits(i, thn, els, rest, a);
    hide Emit, Exec;
  }

  lemma {:induction false} IfElseEmits(i: Image, thn: Code, els: Code, rest: Code, a: int)
    ensures var x := Emit(i.place, thn, a + 8); var b := a + 16 + 4 * |x|;
            var y := Emit(i.place, els, b); var e := b + 4 * |y|;
            Emit(i.place, IfElse(thn, els, rest), a) ==
            [i.place(QBRANCH), Target(b)] + x + ([i.place(BRANCH), Target(e)] + y + Emit(i.place, rest, e))
  {
    var x := Emit(i.place, thn, a + 8);
    var b := a + 16 + 4 * |x|;
    var y := Emit(i.place, els, b);
    var e := b + 4 * |y|;
    assert Emit(i.place, IfElse(thn, els, rest), a) ==
           Jump(i.place, QBRANCH, b) + x + (Jump(i.place, BRANCH, e) + y + Emit(i.place, rest, e)) by {
      hide Jump, Target;
    }
    hide Emit, Target;
  }

  lemma {:induction false} IfElseExec(i: Image, thn: Code, els: Code, rest: Code, d: Data, f: nat)
    ensures d.ds.Bottom? ==> Exec(i, IfElse(thn, els, rest), d, f) == Wrong
    ensures d.ds.S? ==>
              Exec(i, IfElse(thn, els, rest), d, f) ==
              (var r := Exec(i, if d.ds.top != 0 then thn else els, Popped(d), f);
               if r.Fell? then Exec(i, rest, r.d, f) else r)
  {
    hide Popped;
  }

  lemma {:induction false} WhileParts(i: Image, test: Toks, body: Toks, rest: Code, d: Data, f: nat, n: nat, a: int)
    requires Below(While(test, body, rest), n)
    ensures Rank(BRANCH) < Rank(QBRANCH) < n && LineBelow(test, n) && LineBelow(body, n) && Below(rest, n)
    ensures var x, y := EmitLine(i.place, test), EmitLine(i.place, body); var b := a + 16 + 4 * |x| + 4 * |y|;
            Emit(i.place, While(test, body, rest), a) ==
            x + ([i.place(QBRANCH), Target(b)] + y + ([i.place(BRANCH), Target(a)] + Emit(i.place, rest, b)))
    ensures var r := RunLine(i, test, d);
            && (r.None? || r.val.ds.Bottom? ==> Exec(i, While(test, body, rest), d, f) == Wrong)
            && (r.Some? && r.val.ds.S? ==>
                  if r.val.ds.top == 0 then Exec(i, While(test, body, rest), d, f) == Exec(i, rest, Popped(r.val), f)
                  else
                    var e := RunLine(i, body, Popped(r.val));
                    Exec(i, While(test, body, rest), d, f) ==
                    (if e.None? then Wrong
                      else if f == 0 then Late
                      else Exec(i, While(test, body, rest), e.val, f - 1)))
  {
    hide Popped, RunLine, EmitLine, LineBelow;
  }

  lemma {:induction false} ForeverParts(i: Image, turn: Code, d: Data, f: nat, n: nat, a: int)
    requires Below(Forever(turn), n)
    ensures Rank(BRANCH) < Rank(QBRANCH) < n && Below(turn, n)
    ensures Emit(i.place, Forever(turn), a) == Emit(i.place, turn, a) + [i.place(BRANCH), Target(a)]
    ensures Exec(i, Forever(turn), d, f) ==
            var r := Exec(i, turn, d, f);
            if !r.Fell? then r else if f == 0 then Late else Exec(i, Forever(turn), r.d, f - 1)
  {}

  lemma {:induction false} CellsOf(i: Image, w: Word)
    requires Ordinary(w) || w.RFETCH? || w.BRANCH? || w.QBRANCH?
    ensures WordCells(i.place, w) == Emit(i.place, Body(w), i.place(w)) + [EXIT]
  {
    hide Emit, Body;
  }

  lemma {:induction false} ReadyBound(i: Image, s: State, v: Cell)
    requires Ready(i, s, v)
    ensures s.ip < 0xFFFF_FFF8
  {}

  lemma {:induction false} PoppedIs(d: Data)
    requires d.ds.S?
    ensures Popped(d) == Data(d.ds.below, d.rs, None)
  {}

  // ----- simulation -----

  lemma {:induction false} SimTok(n: nat, i: Image, k: Tok, d: Data, base: Stack, s0: State, s: State)
    returns (t: State)
    requires Loaded(i) && Live(i, s, d, base) && Ready(i, s, TokCell(i.place, k)) && Reaches(s0, s)
    requires Act(i, k, d).Some? && LineBelow(T(k, End), n)
    ensures Reaches(s0, t) && t.ip == s.ip + 4 && Live(i, t, Act(i, k, d).val, base)
    decreases n, 0
  {
    hide Loaded, Live, Ready, Reaches, Effect;
    if !k.W? {
      t := SimPlain(i, k, d, base, s0, s);
    } else if k.w.Temp? {
      t := SimTemp(i, d, base, s0, s);
    } else if IsConstant(k.w) {
      t := SimConstant(i, k.w, d, base, s0, s);
    } else if k.w.RFETCH? {
      t := SimRFetch(i, d, base, s0, s);
    } else {
      WordKinds(k.w);
      t := SimWord(i, k.w, d, base, s0, s);
    }
  }

  lemma {:induction false} SimLine(n: nat, i: Image, ts: Toks, d: Data, base: Stack, s0: State, s: State)
    returns (t: State)
    requires Loaded(i) && Live(i, s, d, base) && CellsAt(i, s.ip, EmitLine(i.place, ts)) && Reaches(s0, s)
    requires RunLine(i, ts, d).Some? && LineBelow(ts, n)
    ensures Reaches(s0, t) && t.ip == s.ip + 4 * |EmitLine(i.place, ts)| && Live(i, t, RunLine(i, ts, d).val, base)
    decreases n, 1, ts
  {
    hide Loaded, Live, Reaches, Act, CellsAt, CellAt;
    match ts
    case End => t := s;
    case T(k, more) =>
      FirstCell(i, s.ip, TokCell(i.place, k), EmitLine(i.place, more));
      var s1 := SimTok(n, i, k, d, base, s0, s);
      t := SimLine(n, i, more, Act(i, k, d).val, base, s0, s1);
  }

  /** A derived word: call, body, return. */
  lemma {:induction false} SimWord(i: Image, w: Word, d: Data, base: Stack, s0: State, s: State) returns (t: State)
    requires Loaded(i) && Live(i, s, d, base) && Ready(i, s, i.place(w)) && Reaches(s0, s)
    requires Ordinary(w) && Effect(w, d.ds).Some?
    ensures Reaches(s0, t) && t.ip == s.ip + 4 && Live(i, t, Data(Effect(w, d.ds).val, d.rs, None), base)
    decreases Rank(w), 4
  {
    hide *;
    ReadyBound(i, s, i.place(w));
    NextIs(s.ip);
    PlaceOf(i, w);
    var s1 := SimCall(i, w, d, base, s0, s);
    LiveCalled(i, s, d, base, s1);
    var f := WordMeets(i, w, d.ds);
    MeetsParts(i, w, d.ds, f);
    var s2 := SimBody(i, w, f, Start(d.ds), s1.rs, s0, s1);
    var d2 := Exec(i, Body(w), Start(d.ds), f).d;
    LiveParts(i, s2, d2, s1.rs);
    JoinBottom(d2.rs, s1.rs);
    t := SimExit(i, s0, s2, s.ip + 4, s.rs);
    LiveReturned(i, s, d, base, t, Data(Effect(w, d.ds).val, d.rs, None));
  }

  lemma {:induction false} JoinBottom(a: Stack, b: Stack)
    ensures a == Bottom ==> Join(a, b) == b
    ensures a.S? ==> Join(a, b) == S(a.top, Join(a.below, b))
  {}

  lemma {:induction false} SimRFetch(i: Image, d: Data, base: Stack, s0: State, s: State) returns (t: State)
    requires Loaded(i) && Live(i, s, d, base) && Ready(i, s, i.place(RFETCH)) && Reaches(s0, s) && d.rs.S?
    ensures Reaches(s0, t) && t.ip == s.ip + 4 && Live(i, t, Data(S(d.rs.top, d.ds), d.rs, None), base)
    decreases Rank(RFETCH), 4
  {
    hide *;
    ReadyBound(i, s, i.place(RFETCH));
    NextIs(s.ip);
    PlaceOf(i, RFETCH);
    var s1 := SimCall(i, RFETCH, d, base, s0, s);
    LiveCalled(i, s, d, base, s1);
    var ret, x, under := Next(s.ip), d.rs.top, Join(d.rs.below, base);
    var d1, d2 := Data(d.ds, S(ret, S(x, Bottom)), d.temp), Data(S(x, d.ds), S(ret, S(x, Bottom)), None);
    RFetchRuns(i, d.ds, ret, x, d.temp);
    var s2 := SimBody(i, RFETCH, 0, d1, under, s0, s1);
    LiveParts(i, s2, d2, under);
    JoinBottom(d2.rs, under);
    JoinBottom(d2.rs.below, under);
    JoinBottom(Bottom, under);
    t := SimExit(i, s0, s2, ret, S(x, under));
    LiveReturned(i, s, d, base, t, Data(S(x, d.ds), d.rs, None));
  }

  /** `(BRANCH)` and its target. */
  lemma {:induction false} SimJump(i: Image, to: Cell, d: Data, base: Stack, s0: State, s: State) returns (t: State)
    requires Loaded(i) && Live(i, s, d, base) && CellsAt(i, s.ip, [i.place(BRANCH), to]) && Reaches(s0, s)
    ensures Reaches(s0, t) && t.ip == to && Live(i, t, d, base)
    decreases Rank(BRANCH), 4
  {
    hide *;
    var ret := TwoCells(i, s, i.place(BRANCH), to);
    var s1 := SimCall(i, BRANCH, d, base, s0, s);
    LiveCalled(i, s, d, base, s1);
    BranchRuns(i, d.ds, ret, d.temp);
    var s2 := SimBody(i, BRANCH, 0, Data(d.ds, S(ret, Bottom), d.temp), s.rs, s0, s1);
    var d2 := Data(d.ds, S(to, Bottom), d.temp);
    LiveParts(i, s2, d2, s.rs);
    JoinBottom(d2.rs, s.rs);
    JoinBottom(Bottom, s.rs);
    LiveTemp(i, s2, d2, s.rs);
    t := SimExit(i, s0, s2, to, s.rs);
    LiveReturned(i, s, d, base, t, d);
  }

  lemma {:induction false} LiveTemp(i: Image, s: State, d: Data, base: Stack)
    requires Live(i, s, d, base)
    ensures TempCell(i) in s.mem && (d.temp.Some? ==> s.mem[TempCell(i)] == d.temp.val)
  {}

  /** `(?BRANCH)` takes the flag and goes to the target if it is zero, else past it. */
  lemma {:induction false} SimChoose(i: Image, to: Cell, d: Data, base: Stack, s0: State, s: State) returns (t: State)
    requires Loaded(i) && Live(i, s, d, base) && CellsAt(i, s.ip, [i.place(QBRANCH), to]) && Reaches(s0, s) && d.ds.S?
    ensures Reaches(s0, t) && t.ip == (if d.ds.top == 0 then to else s.ip + 8) && Live(i, t, Popped(d), base)
    decreases Rank(QBRANCH), 4
  {
    hide *;
    PoppedIs(d);
    var ret := TwoCells(i, s, i.place(QBRANCH), to);
    var next := if d.ds.top == 0 then to else Next(ret);
    var s1 := SimCall(i, QBRANCH, d, base, s0, s);
    LiveCalled(i, s, d, base, s1);
    QBranchRuns(i, d.ds.top, d.ds.below, ret, d.temp);
    var s2 := SimBody(i, QBRANCH, 0, Data(d.ds, S(ret, Bottom), d.temp), s.rs, s0, s1);
    var d2 := Data(d.ds.below, S(next, Bottom), None);
    LiveParts(i, s2, d2, s.rs);
    JoinBottom(d2.rs, s.rs);
    JoinBottom(Bottom, s.rs);
    t := SimExit(i, s0, s2, next, s.rs);
    LiveReturned(i, s, d, base, t, Popped(d));
  }

  lemma {:induction false} TwoCells(i: Image, s: State, v: Cell, to: Cell) returns (ret: Cell)
    requires CellsAt(i, s.ip, [v, to])
    ensures Ready(i, s, v) && ret == Next(s.ip) == s.ip + 4 && Next(ret) == s.ip + 8
    ensures ret in i.mem && ret != TempCell(i) && i.mem[ret] == to
  {
    assert [v, to] == [v] + [to] && [to] == [to] + [];
    FirstCell(i, s.ip, v, [to]);
    FirstCell(i, s.ip + 4, to, []);
    ret := Next(s.ip);
  }

  /** The body of a word, up to its EXIT. */
  lemma {:induction false} SimBody(i: Image, w: Word, f: nat, d: Data, base: Stack, s0: State, s: State)
    returns (t: State)
    requires Loaded(i) && Live(i, s, d, base) && s.ip == i.place(w) && Reaches(s0, s)
    requires Ordinary(w) || w.RFETCH? || w.BRANCH? || w.QBRANCH?
    requires var r := Exec(i, Body(w), d, f); r.Fell? || r.Left?
    ensures Reaches(s0, t) && Ready(i, t, EXIT) && Live(i, t, Exec(i, Body(w), d, f).d, base)
    decreases Rank(w), 3
  {
    hide *;
    var x := Emit(i.place, Body(w), i.place(w));
    CellsOf(i, w);
    PlaceOf(i, w);
    Split(i, i.place(w), x, [EXIT]);
    assert [EXIT] == [EXIT] + [];
    FirstCell(i, i.place(w) + 4 * |x|, EXIT, []);
    BodyBelow(w);
    FitsParts(Body(w), Rank(w));
    t := SimCode(Rank(w), i, Body(w), f, d, base, s0, s);
    if Exec(i, Body(w), d, f).Fell? { ReadyAt(i, t, EXIT); }
  }

  lemma {:induction false} ReadyAt(i: Image, t: State, v: Cell)
    requires t.ip < 0xFFFF_FFF8 && CellAt(i, t.ip, v)
    ensures Ready(i, t, v)
  {}

  /** Structured code: what it emits does to the machine what evaluation does to the stacks. */
  lemma {:induction false} SimCode(n: nat, i: Image, c: Code, f: nat, d: Data, base: Stack, s0: State, s: State)
    returns (t: State)
    requires Loaded(i) && Live(i, s, d, base) && CellsAt(i, s.ip, Emit(i.place, c, s.ip)) && Reaches(s0, s)
    requires Below(c, n) && (var r := Exec(i, c, d, f); r.Fell? || r.Left?)
    ensures Reaches(s0, t) && Live(i, t, Exec(i, c, d, f).d, base)
    ensures if Exec(i, c, d, f).Fell? then t.ip == s.ip + 4 * |Emit(i.place, c, s.ip)| else Ready(i, t, EXIT)
    decreases n, 2, f, c
  {
    hide Loaded, Live, Reaches, CellsAt, CellAt, RunLine;
    match c
    case Stop => t := s;
    case Leave =>
      assert [EXIT] == [EXIT] + [];
      FirstCell(i, s.ip, EXIT, []);
      t := s;
    case Line(ts, rest) =>
      var x := EmitLine(i.place, ts);
      Split(i, s.ip, x, Emit(i.place, rest, s.ip + 4 * |x|));
      var s1 := SimLine(n, i, ts, d, base, s0, s);
      t := SimCode(n, i, rest, f, RunLine(i, ts, d).val, base, s0, s1);
    case If(thn, rest) => hide *; t := SimIf(n, i, thn, rest, f, d, base, s0, s);
    case IfElse(thn, els, rest) => hide *; t := SimIfElse(n, i, thn, els, rest, f, d, base, s0, s);
    case While(test, body, rest) => hide *; t := SimWhile(n, i, test, body, rest, f, d, base, s0, s);
    case Forever(turn) => hide *; t := SimForever(n, i, turn, f, d, base, s0, s);
  }

  lemma {:induction false} SimIf(n: nat, i: Image, thn: Code, rest: Code, f: nat, d: Data, base: Stack, s0: State,
                                 s: State)
    returns (t: State)
    requires var c := If(thn, rest);
             && Loaded(i) && Live(i, s, d, base) && CellsAt(i, s.ip, Emit(i.place, c, s.ip)) && Reaches(s0, s)
             && Below(c, n) && (var r := Exec(i, c, d, f); r.Fell? || r.Left?)
    ensures var c := If(thn, rest);
            && Reaches(s0, t) && Live(i, t, Exec(i, c, d, f).d, base)
            && if Exec(i, c, d, f).Fell? then t.ip == s.ip + 4 * |Emit(i.place, c, s.ip)| else Ready(i, t, EXIT)
    decreases n, 2, f, If(thn, rest), 0
  {
    hide *;
    var a: int := s.ip;
    IfParts(i, thn, rest, d, f, n, a);
    var x := Emit(i.place, thn, a + 8);
    var b := a + 8 + 4 * |x|;
    Split(i, a, [i.place(QBRANCH), Target(b)] + x, Emit(i.place, rest, b));
    Split(i, a, [i.place(QBRANCH), Target(b)], x);
    Bounds(i, b, Emit(i.place, rest, b));
    InRange(b);
    var s1 := SimChoose(i, b, d, base, s0, s);
    if d.ds.top != 0 {
      var r := Exec(i, thn, Popped(d), f);
      t := SimCode(n, i, thn, f, Popped(d), base, s0, s1);
      if r.Fell? { t := SimCode(n, i, rest, f, r.d, base, s0, t); }
    } else {
      t := SimCode(n, i, rest, f, Popped(d), base, s0, s1);
    }
  }

  lemma {:induction false} SimIfElse(n: nat, i: Image, thn: Code, els: Code, rest: Code, f: nat, d: Data, base: Stack,
                                     s0: State, s: State) returns (t: State)
    requires var c := IfElse(thn, els, rest);
             && Loaded(i) && Live(i, s, d, base) && CellsAt(i, s.ip, Emit(i.place, c, s.ip)) && Reaches(s0, s)
             && Below(c, n) && (var r := Exec(i, c, d, f); r.Fell? || r.Left?)
    ensures var c := IfElse(thn, els, rest);
            && Reaches(s0, t) && Live(i, t, Exec(i, c, d, f).d, base)
            && if Exec(i, c, d, f).Fell? then t.ip == s.ip + 4 * |Emit(i.place, c, s.ip)| else Ready(i, t, EXIT)
    decreases n, 2, f, IfElse(thn, els, rest), 0
  {
    hide *;
    var a: int := s.ip;
    IfElseParts(i, thn, els, rest, n, a);
    IfElseExec(i, thn, els, rest, d, f);
    var x := Emit(i.place, thn, a + 8);
    var b := a + 16 + 4 * |x|;
    var y := Emit(i.place, els, b);
    var e := b + 4 * |y|;
    var z := Emit(i.place, rest, e);
    Split(i, a, [i.place(QBRANCH), Target(b)] + x, [i.place(BRANCH), Target(e)] + y + z);
    Split(i, a, [i.place(QBRANCH), Target(b)], x);
    Split(i, b - 8, [i.place(BRANCH), Target(e)] + y, z);
    Split(i, b - 8, [i.place(BRANCH), Target(e)], y);
    Bounds(i, e, z);
    InRange(b);
    InRange(e);
    var s1 := SimChoose(i, b, d, base, s0, s);
    var r := Exec(i, if d.ds.top != 0 then thn else els, Popped(d), f);
    if d.ds.top != 0 {
      t := SimCode(n, i, thn, f, Popped(d), base, s0, s1);
      if r.Fell? { t := SimJump(i, e, r.d, base, s0, t); }
    } else {
      t := SimCode(n, i, els, f, Popped(d), base, s0, s1);
    }
    if r.Fell? { t := SimCode(n, i, rest, f, r.d, base, s0, t); }
  }

  lemma {:induction false} SimWhile(n: nat, i: Image, test: Toks, body: Toks, rest: Code, f: nat, d: Data, base: Stack,
                                    s0: State, s: State) returns (t: State)
    requires var c := While(test, body, rest);
             && Loaded(i) && Live(i, s, d, base) && CellsAt(i, s.ip, Emit(i.place, c, s.ip)) && Reaches(s0, s)
             && Below(c, n) && (var r := Exec(i, c, d, f); r.Fell? || r.Left?)
    ensures var c := While(test, body, rest);
            && Reaches(s0, t) && Live(i, t, Exec(i, c, d, f).d, base)
            && if Exec(i, c, d, f).Fell? then t.ip == s.ip + 4 * |Emit(i.place, c, s.ip)| else Ready(i, t, EXIT)
    decreases n, 2, f, While(test, body, rest), 0
  {
    hide *;
    var a: int := s.ip;
    WhileParts(i, test, body, rest, d, f, n, a);
    var x := EmitLine(i.place, test);
    var y := EmitLine(i.place, body);
    var b := a + 16 + 4 * |x| + 4 * |y|;
    var z := Emit(i.place, rest, b);
    Split(i, a, x, [i.place(QBRANCH), Target(b)] + y + ([i.place(BRANCH), Target(a)] + z));
    Split(i, a + 4 * |x|, [i.place(QBRANCH), Target(b)] + y, [i.place(BRANCH), Target(a)] + z);
    Split(i, a + 4 * |x|, [i.place(QBRANCH), Target(b)], y);
    Split(i, b - 8, [i.place(BRANCH), Target(a)], z);
    Bounds(i, b, z);
    InRange(b);
    InRange(a);
    var s1 := SimLine(n, i, test, d, base, s0, s);
    var d1 := RunLine(i, test, d).val;
    var s2 := SimChoose(i, b, d1, base, s0, s1);
    if d1.ds.top == 0 {
      t := SimCode(n, i, rest, f, Popped(d1), base, s0, s2);
    } else {
      var d2 := RunLine(i, body, Popped(d1)).val;
      var s3 := SimLine(n, i, body, Popped(d1), base, s0, s2);
      var s4 := SimJump(i, s.ip, d2, base, s0, s3);
      t := SimCode(n, i, While(test, body, rest), f - 1, d2, base, s0, s4);
    }
  }

  lemma {:induction false} SimForever(n: nat, i: Image, turn: Code, f: nat, d: Data, base: Stack, s0: State, s: State)
    returns (t: State)
    requires var c := Forever(turn);
             && Loaded(i) && Live(i, s, d, base) && CellsAt(i, s.ip, Emit(i.place, c, s.ip)) && Reaches(s0, s)
             && Below(c, n) && (var r := Exec(i, c, d, f); r.Fell? || r.Left?)
    ensures var c := Forever(turn);
            && Reaches(s0, t) && Live(i, t, Exec(i, c, d, f).d, base)
            && if Exec(i, c, d, f).Fell? then t.ip == s.ip + 4 * |Emit(i.place, c, s.ip)| else Ready(i, t, EXIT)
    decreases n, 2, f, Forever(turn), 0
  {
    hide *;
    var a: int := s.ip;
    var x := Emit(i.place, turn, a);
    ForeverParts(i, turn, d, f, n, a);
    Split(i, a, x, [i.place(BRANCH), Target(a)]);
    InRange(a);
    var r := Exec(i, turn, d, f);
    t := SimCode(n, i, turn, f, d, base, s0, s);
    if r.Fell? {
      t := SimJump(i, s.ip, r.d, base, s0, t);
      t := SimCode(n, i, Forever(turn), f - 1, r.d, base, s0, t);
    }
  }

  lemma {:induction false} LiveStart(i: Image, s: State)
    requires s.rs.S? && TempCell(i) in i.mem && s.mem == i.mem
    ensures Live(i, s, Start(s.ds), s.rs)
  {}

  /** Main theorem: called from the top of the return stack, a derived word runs to its EXIT
      and stops the processor with its specified effect on the parameter stack, and with
      nothing but TEMP changed in memory. */
  lemma {:induction false} ProcessorRunsWord(i: Image, w: Word, ds: Stack, ret: Cell) returns (t: State)
    requires Loaded(i) && TempCell(i) in i.mem && Ordinary(w) && Effect(w, ds).Some?
    ensures Reaches(State(i.place(w), ds, S(ret, Bottom), i.mem), t)
    ensures t.rs == Bottom && t.ip == ret && t.ds == Effect(w, ds).val && MemOk(i, t.mem)
  {
    var s := State(i.place(w), ds, S(ret, Bottom), i.mem);
    hide *;
    LiveStart(i, s);
    ReachHere(s);
    PlaceOf(i, w);
    var f := WordMeets(i, w, ds);
    MeetsParts(i, w, ds, f);
    var s1 := SimBody(i, w, f, Start(ds), S(ret, Bottom), s, s);
    LiveParts(i, s1, Exec(i, Body(w), Start(ds), f).d, S(ret, Bottom));
    JoinBottom(Bottom, S(ret, Bottom));
    t := SimExit(i, s, s1, ret, Bottom);
  }
}
