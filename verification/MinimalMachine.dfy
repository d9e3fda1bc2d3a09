/** A Forth machine of nine instructions, the words compiled for it, and what running a word
    on the machine does. */
module MinimalMachine {
  import opened Arithmetic
  import opened Options
  import opened Cells

  // ----- the machine -----

  /** A stack with its cached top. Below `Bottom` is what the top register held at reset. */
  datatype Stack = Bottom | S(top: Cell, below: Stack)

  predicate Two(ds: Stack) { ds.S? && ds.below.S? }

  function Join(a: Stack, b: Stack): Stack {
    if a.Bottom? then b else S(a.top, Join(a.below, b))
  }

  // The cells of the instructions; any other cell is the body of a word to call.
  const INC: Cell := 1
  const ISZERO: Cell := 2
  const NAND: Cell := 3
  const TOR: Cell := 4
  const FROMR: Cell := 5
  const STORE: Cell := 6
  const FETCH: Cell := 7
  const EXIT: Cell := 8
  const DUMP: Cell := 9

  datatype State = State(ip: Cell, ds: Stack, rs: Stack, mem: map<int, Cell>)

  function Next(a: Cell): Cell { (a + 4) % M }

  /** One instruction. The processor stops when the return stack is empty. */
  function Step(s: State): Opt<State> {
    if s.rs.Bottom? || s.ip !in s.mem then None
    else
      var ir := s.mem[s.ip];
      var n := s.(ip := Next(s.ip));
      if ir == INC then if s.ds.S? then Some(n.(ds := S(Plus(s.ds.top, 1), s.ds.below))) else None
      else if ir == ISZERO then if s.ds.S? then Some(n.(ds := S(Flag(s.ds.top == 0), s.ds.below))) else None
      else if ir == NAND then
        if Two(s.ds) then Some(n.(ds := S(Nand(s.ds.below.top, s.ds.top), s.ds.below.below))) else None
      else if ir == TOR then if s.ds.S? then Some(n.(ds := s.ds.below, rs := S(s.ds.top, s.rs))) else None
      else if ir == FROMR then Some(n.(ds := S(s.rs.top, s.ds), rs := s.rs.below))
      else if ir == STORE then
        if Two(s.ds) then
          Some(n.(ds := s.ds.below.below, mem := s.mem[s.ds.top as int := s.ds.below.top]))
        else None
      else if ir == FETCH then
        if s.ds.S? && s.ds.top in s.mem then Some(n.(ds := S(s.mem[s.ds.top], s.ds.below))) else None
      else if ir == EXIT then Some(s.(ip := s.rs.top, rs := s.rs.below))
      else if ir == DUMP then Some(n)
      else Some(n.(ip := ir, rs := S(n.ip, s.rs)))
  }

  function Run(n: nat, s: State): Opt<State> {
    if n == 0 then Some(s)
    else var r := Run(n - 1, s); if r.Some? then Step(r.val) else None
  }

  ghost predicate Reaches(s: State, t: State) { exists n: nat :: Run(n, s) == Some(t) }

  lemma {:induction false} ReachHere(s: State)
    ensures Reaches(s, s)
  {
    assert Run(0, s) == Some(s);
  }

  lemma {:induction false} ReachStep(s0: State, s: State, t: State)
    requires Reaches(s0, s) && Step(s) == Some(t)
    ensures Reaches(s0, t)
  {
    var n: nat :| Run(n, s0) == Some(s);
    assert Run(n + 1, s0) == Some(t);
  }

  // ----- words, in the order of their definition -----

  datatype Word =
    | VariableCode | ConstantCode | Temp | DROP | DUP | SWAP | ROT | OVER | RFETCH
    | True0 | False0 | BOOLEAN | NOT | AND | OR | XOR | MinInt | Zero | DEC | TWOPLUS | TWOMINUS
    | ISNEG | ISPOS | CELLPLUS | BRANCH | QBRANCH | QDUP | TUCK | NIP | TWODUP | TWODROP
    | NEGATE | ABS | PLUS | MINUS | ULESS | UTIMES | UDIVMOD | TIMES | DIVMOD | EQUAL | LESS

  function Rank(w: Word): nat {
    match w
    case VariableCode => 0 case ConstantCode => 1 case Temp => 2 case DROP => 3 case DUP => 4
    case SWAP => 5 case ROT => 6 case OVER => 7 case RFETCH => 8 case True0 => 9 case False0 => 10
    case BOOLEAN => 11 case NOT => 12 case AND => 13 case OR => 14 case XOR => 15 case MinInt => 16
    case Zero => 17 case DEC => 18 case TWOPLUS => 19 case TWOMINUS => 20 case ISNEG => 21
    case ISPOS => 22 case CELLPLUS => 23 case BRANCH => 24 case QBRANCH => 25 case QDUP => 26
    case TUCK => 27 case NIP => 28 case TWODUP => 29 case TWODROP => 30 case NEGATE => 31
    case ABS => 32 case PLUS => 33 case MINUS => 34 case ULESS => 35 case UTIMES => 36
    case UDIVMOD => 37 case TIMES => 38 case DIVMOD => 39 case EQUAL => 40 case LESS => 41
  }

  predicate IsConstant(w: Word) { w.True0? || w.False0? || w.MinInt? || w.Zero? }

  function ConstantOf(w: Word): Cell
    requires IsConstant(w)
  {
    match w
    case True0 => TRUE
    case MinInt => TOP
    case _ => 0
  }

  datatype Tok = Inc | IsZero | NandT | ToR | FromR | StoreT | FetchT | W(w: Word)
  datatype Toks = End | T(t: Tok, more: Toks)

  /** Compiled code with the control structures it was compiled from. */
  datatype Code =
    | Stop
    | Leave
    | Line(ts: Toks, rest: Code)
    | If(thn: Code, rest: Code)
    | IfElse(thn: Code, els: Code, rest: Code)
    | While(test: Toks, body: Toks, rest: Code)
    | Forever(turn: Code)

  /** The loops of `+`: towards zero from below or from above. */
  function UpLoop(): Code { While(T(W(DUP), End), T(Inc, T(W(SWAP), T(W(DEC), T(W(SWAP), End)))), Stop) }
  function DownLoop(): Code { While(T(W(DUP), End), T(W(DEC), T(W(SWAP), T(Inc, T(W(SWAP), End)))), Stop) }

  /** `U<` counts both operands down until one is zero. */
  function LessLoop(): Code {
    Forever(Line(T(W(DUP), End),
      IfElse(Line(T(W(DEC), End), Stop), Line(T(W(TWODROP), T(W(False0), End)), Leave), LessOther())))
  }

  function LessOther(): Code {
    Line(T(W(SWAP), T(W(DUP), End)),
      IfElse(Line(T(W(DEC), End), Stop), Line(T(W(TWODROP), T(W(True0), End)), Leave),
      Line(T(W(SWAP), End), Stop)))
  }

  function TimesLoop(): Code {
    While(T(W(DUP), End), T(W(DEC), T(W(SWAP), T(W(RFETCH), T(W(PLUS), T(W(SWAP), End))))),
      Line(T(FromR, T(W(TWODROP), End)), Stop))
  }

  function DivideLoop(): Code {
    While(T(W(DUP), T(W(RFETCH), T(W(MINUS), T(W(DUP), T(W(ISNEG), T(W(NOT), End)))))),
      T(W(SWAP), T(W(DROP), T(W(SWAP), T(Inc, T(W(SWAP), End))))),
      Line(T(FromR, T(W(TWODROP), End)), Stop))
  }

  /** `2DUP XOR 0< >R`: whether the signs differ, kept on the return stack. */
  function SignsDiffer(): Toks { T(W(TWODUP), T(W(XOR), T(W(ISNEG), T(ToR, End)))) }

  /** `ABS SWAP ABS SWAP` */
  function Magnitudes(): Toks { T(W(ABS), T(W(SWAP), T(W(ABS), T(W(SWAP), End)))) }

  /** `U/MOD`, then the signs: the remainder's first, the quotient's from below. */
  function DivideSigned(): Code { Line(T(W(UDIVMOD), T(FromR, End)), If(Negated(), QuotientSign())) }

  function QuotientSign(): Code {
    Line(T(FromR, End), If(Line(T(W(SWAP), T(W(NEGATE), T(W(SWAP), End))), Stop), Stop))
  }

  function Negated(): Code { Line(T(W(NEGATE), End), Stop) }

  function Body(w: Word): Code {
    match w
    case VariableCode => Line(T(FromR, End), Stop)
    case ConstantCode => Line(T(FromR, T(FetchT, End)), Stop)
    case DROP => Line(T(W(Temp), T(StoreT, End)), Stop)
    case DUP => Line(T(W(Temp), T(StoreT, T(W(Temp), T(FetchT, T(W(Temp), T(FetchT, End)))))), Stop)
    case SWAP => Line(T(W(Temp), T(StoreT, T(ToR, T(W(Temp), T(FetchT, T(FromR, End)))))), Stop)
    case ROT => Line(T(ToR, T(W(SWAP), T(FromR, T(W(SWAP), End)))), Stop)
    case OVER => Line(T(ToR, T(W(DUP), T(FromR, T(W(SWAP), End)))), Stop)
    case RFETCH => Line(T(FromR, T(FromR, T(W(DUP), T(ToR, T(W(SWAP), T(ToR, End)))))), Stop)
    case BOOLEAN => Line(T(IsZero, T(IsZero, End)), Stop)
    case NOT => Line(T(W(DUP), T(NandT, End)), Stop)
    case AND => Line(T(NandT, T(W(NOT), End)), Stop)
    case OR => Line(T(W(NOT), T(W(SWAP), T(W(NOT), T(NandT, End)))), Stop)
    case XOR =>
      Line(T(W(OVER), T(W(OVER), T(W(NOT), T(NandT, T(ToR, T(W(SWAP), End)))))),
      Line(T(W(NOT), T(NandT, T(FromR, T(NandT, End)))), Stop))
    case DEC => Line(T(W(NOT), T(Inc, T(W(NOT), End))), Stop)
    case TWOPLUS => Line(T(Inc, T(Inc, End)), Stop)
    case TWOMINUS => Line(T(W(NOT), T(W(TWOPLUS), T(W(NOT), End))), Stop)
    case ISNEG => Line(T(W(MinInt), T(W(AND), T(W(BOOLEAN), End))), Stop)
    case ISPOS =>
      Line(T(W(DUP), T(IsZero, T(W(SWAP), T(W(ISNEG), T(W(OR), T(W(NOT), End)))))),
      Line(T(W(BOOLEAN), End), Stop))
    case CELLPLUS => Line(T(Inc, T(Inc, T(Inc, T(Inc, End)))), Stop)
    case BRANCH => Line(T(FromR, T(FetchT, T(ToR, End))), Stop)
    case QBRANCH =>
      Line(T(IsZero, T(W(DUP), T(W(RFETCH), T(FetchT, T(W(AND), T(W(SWAP), End)))))),
      Line(T(W(NOT), T(FromR, T(W(CELLPLUS), T(W(AND), T(W(OR), T(ToR, End)))))), Stop))
    case QDUP => Line(T(W(DUP), End), If(Line(T(W(DUP), End), Stop), Stop))
    case TUCK => Line(T(W(SWAP), T(W(OVER), End)), Stop)
    case NIP => Line(T(W(SWAP), T(W(DROP), End)), Stop)
    case TWODUP => Line(T(W(OVER), T(W(OVER), End)), Stop)
    case TWODROP => Line(T(W(DROP), T(W(DROP), End)), Stop)
    case NEGATE => Line(T(W(NOT), T(Inc, End)), Stop)
    case ABS => Line(T(W(DUP), T(W(ISNEG), End)), If(Negated(), Stop))
    case PLUS => Line(T(W(DUP), T(W(ISNEG), End)), IfElse(UpLoop(), DownLoop(), Line(T(W(DROP), End), Stop)))
    case MINUS => Line(T(W(NEGATE), T(W(PLUS), End)), Stop)
    case ULESS => LessLoop()
    case UTIMES => Line(T(ToR, T(W(Zero), T(W(SWAP), End))), TimesLoop())
    case UDIVMOD => Line(T(ToR, T(W(Zero), T(W(SWAP), End))), DivideLoop())
    case TIMES =>
      Line(SignsDiffer(), Line(Magnitudes(), Line(T(W(UTIMES), T(FromR, End)), If(Negated(), Stop))))
    case DIVMOD =>
      Line(SignsDiffer(), Line(T(W(OVER), T(W(ISNEG), T(ToR, End))), Line(Magnitudes(), DivideSigned())))
    case EQUAL => Line(T(W(XOR), T(W(BOOLEAN), T(W(NOT), End))), Stop)
    case LESS => Line(T(W(MINUS), T(W(ISNEG), End)), Stop)
    case _ => Stop
  }

  // ----- what the words are for -----

  function AbsCell(x: Cell): Cell { Abs(Signed(x)) % M }

  function UQuotient(x: Cell, y: Cell): (q: Cell)
    requires y > 0
    ensures x == q * y + x % y
  {
    QuotientSmall(x, y);
    x / y
  }

  function URemainder(x: Cell, y: Cell): (r: Cell)
    requires y > 0
    ensures r < y
  {
    x % y
  }

  /** `U/MOD` tells a finished subtraction by its sign. The sign is right while the remainder
      before it stays below the divisor plus 2^31, and the last one within 2^31 of it. */
  predicate Divides(x: Cell, y: Cell) {
    if 0 < y <= TOP then x < y + TOP else y != 0 && y <= (if x < y then x else x - y) + TOP
  }

  lemma {:induction false} QuotientSmall(x: nat, y: nat)
    requires y > 0
    ensures 0 <= x / y <= x && x == x / y * y + x % y
  {
    TimesAtLeast(x / y, y);
  }

  lemma {:induction false} TimesAtLeast(q: nat, y: nat)
    requires y > 0
    ensures q * y >= q
  {}

  function SignedProduct(x: Cell, y: Cell): Cell { Signed(x) * Signed(y) % M }

  function SignedQuotient(x: Cell, y: Cell): Cell
    requires y != 0
  {
    Div(Signed(x), Signed(y)) % M
  }

  function SignedRemainder(x: Cell, y: Cell): Cell
    requires y != 0
  {
    Mod(Signed(x), Signed(y)) % M
  }

  /** The specification of a derived word on the parameter stack; none where the word makes
      no promise. */
  function Effect(w: Word, ds: Stack): Opt<Stack> {
    if ds.Bottom? then None
    else if IsUnary(w) then Some(Unary(w, ds.top, ds.below))
    else if ds.below.Bottom? then None
    else if IsBinary(w) then Binary(w, ds.below.top, ds.top, ds.below.below)
    else if w.ROT? && ds.below.below.S? then
      Some(S(ds.below.below.top, S(ds.top, S(ds.below.top, ds.below.below.below))))
    else None
  }

  predicate IsUnary(w: Word) {
    w.DROP? || w.DUP? || w.BOOLEAN? || w.NOT? || w.DEC? || w.TWOPLUS? || w.TWOMINUS? || w.ISNEG? || w.ISPOS? ||
    w.CELLPLUS? || w.QDUP? || w.NEGATE? || w.ABS?
  }

  /** ( x -- ... ) */
  function Unary(w: Word, x: Cell, r: Stack): Stack
    requires IsUnary(w)
  {
    match w
    case DROP => r
    case DUP => S(x, S(x, r))
    case BOOLEAN => S(Flag(x != 0), r)
    case NOT => S(Not(x), r)
    case DEC => S(Difference(x, 1), r)
    case TWOPLUS => S(Plus(x, 2), r)
    case TWOMINUS => S(Difference(x, 2), r)
    case ISNEG => S(Flag(Signed(x) < 0), r)
    case ISPOS => S(Flag(Signed(x) > 0), r)
    case CELLPLUS => S(Next(x), r)
    case QDUP => if x == 0 then S(x, r) else S(x, S(x, r))
    case NEGATE => S(Minus(x), r)
    case ABS => S(AbsCell(x), r)
  }

  predicate IsBinary(w: Word) {
    w.SWAP? || w.OVER? || w.AND? || w.OR? || w.XOR? || w.TUCK? || w.NIP? || w.TWODUP? || w.TWODROP? ||
    w.PLUS? || w.MINUS? || w.ULESS? || w.UTIMES? || w.UDIVMOD? || w.TIMES? || w.DIVMOD? || w.EQUAL? || w.LESS?
  }

  /** ( x y -- ... ) */
  function Binary(w: Word, x: Cell, y: Cell, r: Stack): Opt<Stack>
    requires IsBinary(w)
  {
    match w
    case SWAP => Some(S(x, S(y, r)))
    case OVER => Some(S(x, S(y, S(x, r))))
    case AND => Some(S(And(x, y), r))
    case OR => Some(S(Or(x, y), r))
    case XOR => Some(S(Xor(x, y), r))
    case TUCK => Some(S(y, S(x, S(y, r))))
    case NIP => Some(S(y, r))
    case TWODUP => Some(S(y, S(x, S(y, S(x, r)))))
    case TWODROP => Some(r)
    case PLUS => Some(S(Plus(x, y), r))
    case MINUS => Some(S(Difference(x, y), r))
    case ULESS => Some(S(Flag(x < y), r))
    case UTIMES => Some(S(Product(x, y), r))
    case TIMES => Some(S(SignedProduct(x, y), r))
    case UDIVMOD => if Divides(x, y) then Some(S(URemainder(x, y), S(UQuotient(x, y), r))) else None
    case DIVMOD => if y != 0 then Some(S(SignedRemainder(x, y), S(SignedQuotient(x, y), r))) else None
    case EQUAL => Some(S(Flag(x == y), r))
    case LESS => Some(S(Flag(Signed(Difference(x, y)) < 0), r))
  }

  // ----- images of compiled words -----

  /** Where each word's body is, and the memory at the start. */
  datatype Image = Image(place: Word -> Cell, mem: map<int, Cell>)

  /** The data cell of the variable `TEMP`, after its one code cell. */
  function TempCell(i: Image): int { i.place(Temp) + 4 }

  function TokCell(place: Word -> Cell, t: Tok): Cell {
    match t
    case Inc => INC
    case IsZero => ISZERO
    case NandT => NAND
    case ToR => TOR
    case FromR => FROMR
    case StoreT => STORE
    case FetchT => FETCH
    case W(w) => place(w)
  }

  function EmitLine(place: Word -> Cell, ts: Toks): seq<Cell> {
    if ts.End? then [] else [TokCell(place, ts.t)] + EmitLine(place, ts.more)
  }

  function Target(to: int): Cell { to % M }

  function Jump(place: Word -> Cell, w: Word, to: int): seq<Cell> { [place(w), Target(to)] }

  /** The control words' compilation: branches hold absolute addresses. */
  function Emit(place: Word -> Cell, c: Code, a: int): seq<Cell> {
    match c
    case Stop => []
    case Leave => [EXIT]
    case Line(ts, rest) => var x := EmitLine(place, ts); x + Emit(place, rest, a + 4 * |x|)
    case If(thn, rest) =>
      var x := Emit(place, thn, a + 8);
      var b := a + 8 + 4 * |x|;
      Jump(place, QBRANCH, b) + x + Emit(place, rest, b)
    case IfElse(thn, els, rest) =>
      var x := Emit(place, thn, a + 8);
      var b := a + 16 + 4 * |x|;
      var y := Emit(place, els, b);
      Jump(place, QBRANCH, b) + x + (Jump(place, BRANCH, b + 4 * |y|) + y + Emit(place, rest, b + 4 * |y|))
    case While(test, body, rest) =>
      var x := EmitLine(place, test);
      var y := EmitLine(place, body);
      var b := a + 16 + 4 * |x| + 4 * |y|;
      x + (Jump(place, QBRANCH, b) + y + (Jump(place, BRANCH, a) + Emit(place, rest, b)))
    case Forever(turn) =>
      var x := Emit(place, turn, a);
      x + Jump(place, BRANCH, a)
  }

  function WordCells(place: Word -> Cell, w: Word): seq<Cell> {
    if w.Temp? then [place(VariableCode)]
    else if IsConstant(w) then [place(ConstantCode), ConstantOf(w)]
    else Emit(place, Body(w), place(w)) + [EXIT]
  }

  ghost predicate CellsAt(i: Image, a: int, cells: seq<Cell>) {
    && 0 <= a && a + 4 * |cells| <= 0xFFFF_FFF8
    && forall k :: 0 <= k < |cells| ==> CellAt(i, a + 4 * k, cells[k])
  }

  ghost predicate CellAt(i: Image, a: int, v: Cell) {
    a in i.mem && a != TempCell(i) && i.mem[a] == v
  }

  /** Every word is compiled somewhere above the instruction codes, apart from TEMP's data. */
  ghost predicate Loaded(i: Image) {
    && (forall w :: i.place(w) > DUMP && CellsAt(i, i.place(w), WordCells(i.place, w)))
    && TempCell(i) < 0xFFFF_FFF8
  }

  /** Memory during a run: only TEMP may have changed. */
  ghost predicate MemOk(i: Image, mem: map<int, Cell>) {
    && TempCell(i) in mem
    && forall a :: a in i.mem && a != TempCell(i) ==> a in mem && mem[a] == i.mem[a]
  }

  // ----- running code on the stacks alone -----

  /** Parameter stack, return stack above the caller's, and TEMP if its value is known. */
  datatype Data = Data(ds: Stack, rs: Stack, temp: Opt<Cell>)

  /** One cell of a line. A called word has its specified effect and leaves TEMP unknown. */
  function Act(i: Image, t: Tok, d: Data): Opt<Data> {
    match t
    case Inc => if d.ds.S? then Some(d.(ds := S(Plus(d.ds.top, 1), d.ds.below))) else None
    case IsZero => if d.ds.S? then Some(d.(ds := S(Flag(d.ds.top == 0), d.ds.below))) else None
    case NandT => if Two(d.ds) then Some(d.(ds := S(Nand(d.ds.below.top, d.ds.top), d.ds.below.below))) else None
    case ToR => if d.ds.S? then Some(d.(ds := d.ds.below, rs := S(d.ds.top, d.rs))) else None
    case FromR => if d.rs.S? then Some(d.(ds := S(d.rs.top, d.ds), rs := d.rs.below)) else None
    case StoreT =>
      if Two(d.ds) && d.ds.top == TempCell(i) then Some(d.(ds := d.ds.below.below, temp := Some(d.ds.below.top)))
      else None
    case FetchT =>
      if d.ds.Bottom? then None
      else if d.ds.top == TempCell(i) then if d.temp.Some? then Some(d.(ds := S(d.temp.val, d.ds.below))) else None
      else if d.ds.top in i.mem then Some(d.(ds := S(i.mem[d.ds.top], d.ds.below)))
      else None
    case W(w) =>
      if w.Temp? then if TempCell(i) < M then Some(d.(ds := S(TempCell(i), d.ds))) else None
      else if IsConstant(w) then Some(d.(ds := S(ConstantOf(w), d.ds)))
      else if w.RFETCH? then if d.rs.S? then Some(Data(S(d.rs.top, d.ds), d.rs, None)) else None
      else var e := Effect(w, d.ds); if e.Some? then Some(Data(e.val, d.rs, None)) else None
  }

  function RunLine(i: Image, ts: Toks, d: Data): Opt<Data>
    decreases ts
  {
    match ts
    case End => Some(d)
    case T(t, more) => var r := Act(i, t, d); if r.Some? then RunLine(i, more, r.val) else None
  }

  datatype Outcome = Fell(d: Data) | Left(d: Data) | Wrong | Late

  /** Structured evaluation; `f` bounds the iterations. */
  function Exec(i: Image, c: Code, d: Data, f: nat): Outcome
    decreases f, c
  {
    match c
    case Stop => Fell(d)
    case Leave => Left(d)
    case Line(ts, rest) =>
      var r := RunLine(i, ts, d);
      if r.Some? then Exec(i, rest, r.val, f) else Wrong
    case If(thn, rest) =>
      if d.ds.Bottom? then Wrong
      else
        var r := if d.ds.top != 0 then Exec(i, thn, Popped(d), f) else Fell(Popped(d));
        if r.Fell? then Exec(i, rest, r.d, f) else r
    case IfElse(thn, els, rest) =>
      if d.ds.Bottom? then Wrong
      else
        var r := if d.ds.top != 0 then Exec(i, thn, Popped(d), f) else Exec(i, els, Popped(d), f);
        if r.Fell? then Exec(i, rest, r.d, f) else r
    case While(test, body, rest) =>
      var r := RunLine(i, test, d);
      if r.None? || r.val.ds.Bottom? then Wrong
      else if r.val.ds.top == 0 then Exec(i, rest, Popped(r.val), f)
      else
        var e := RunLine(i, body, Popped(r.val));
        if e.None? then Wrong else if f == 0 then Late else Exec(i, c, e.val, f - 1)
    case Forever(turn) =>
      var r := Exec(i, turn, d, f);
      if !r.Fell? then r else if f == 0 then Late else Exec(i, c, r.d, f - 1)
  }

  /** The flag is taken by a conditional branch, which also uses TEMP. */
  function Popped(d: Data): Data
    requires d.ds.S?
  {
    Data(d.ds.below, d.rs, None)
  }
}
