/** There is a memory image in which all words of the nine-instruction machine are compiled. */
module MinimalImage {
  import opened Cells
  import opened MinimalMachine
  import opened MinimalWords
  import opened MinimalProof

  const ROOM: int := 1024
  const END_OF_IMAGE: int := 0x1_0000

  /** Each word gets a kilobyte, in the order of definition. */
  function PlaceOf(w: Word): (a: Cell)
    ensures a % ROOM == 0 && ROOM <= a <= 42 * ROOM
  {
    RankSmall(w);
    (Rank(w) + 1) * ROOM
  }

  lemma {:induction false} RankSmall(w: Word)
    ensures Rank(w) <= 41
  {}

  lemma {:induction false} LineLength(place: Word -> Cell, ts: Toks)
    ensures |EmitLine(place, ts)| == LineSize(ts)
  {
    if !ts.End? { LineLength(place, ts.more); }
  }

  lemma {:induction false} EmitLength(place: Word -> Cell, c: Code, a: int)
    ensures |Emit(place, c, a)| == CodeSize(c)
    decreases c, 1
  {
    match c
    case Stop =>
    case Leave =>
    case Line(ts, rest) =>
      LineLength(place, ts);
      EmitLength(place, rest, a + 4 * LineSize(ts));
    case If(thn, rest) =>
      EmitLength(place, thn, a + 8);
      EmitLength(place, rest, a + 8 + 4 * CodeSize(thn));
    case IfElse(thn, els, rest) => BranchesLength(place, thn, els, rest, a);
    case While(test, body, rest) => WhileLength(place, test, body, rest, a);
    case Forever(turn) => EmitLength(place, turn, a);
  }

  lemma {:induction false} BranchesLength(place: Word -> Cell, thn: Code, els: Code, rest: Code, a: int)
    ensures |Emit(place, IfElse(thn, els, rest), a)| == CodeSize(IfElse(thn, els, rest))
    decreases IfElse(thn, els, rest), 0
  {
    hide Emit;
    IfElseCells(place, thn, els, rest, a);
    var b := a + 16 + 4 * CodeSize(thn);
    EmitLength(place, thn, a + 8);
    EmitLength(place, els, b);
    EmitLength(place, rest, b + 4 * CodeSize(els));
  }

  lemma {:induction false} IfElseCells(place: Word -> Cell, thn: Code, els: Code, rest: Code, a: int)
    ensures var x := |Emit(place, thn, a + 8)|;
            var y := |Emit(place, els, a + 16 + 4 * x)|;
            |Emit(place, IfElse(thn, els, rest), a)| == 4 + x + y + |Emit(place, rest, a + 16 + 4 * x + 4 * y)|
  {}

  lemma {:induction false} WhileCells(place: Word -> Cell, test: Toks, body: Toks, rest: Code, a: int)
    ensures var x, y := |EmitLine(place, test)|, |EmitLine(place, body)|;
            |Emit(place, While(test, body, rest), a)| == 4 + x + y + |Emit(place, rest, a + 16 + 4 * x + 4 * y)|
  {}

  lemma {:induction false} WhileLength(place: Word -> Cell, test: Toks, body: Toks, rest: Code, a: int)
    ensures |Emit(place, While(test, body, rest), a)| == CodeSize(While(test, body, rest))
    decreases While(test, body, rest), 0
  {
    hide Emit, EmitLine;
    WhileCells(place, test, body, rest, a);
    LineLength(place, test);
    LineLength(place, body);
    EmitLength(place, rest, a + 16 + 4 * LineSize(test) + 4 * LineSize(body));
  }

  /** The cells of a word in this image. */
  function Compiled(w: Word): seq<Cell> { WordCells(PlaceOf, w) }

  lemma {:induction false} CompiledLength(w: Word)
    ensures |Compiled(w)| <= 65 && (w.Temp? ==> |Compiled(w)| == 1)
  {
    if !w.Temp? && !IsConstant(w) {
      hide Body, Emit;
      EmitLength(PlaceOf, Body(w), PlaceOf(w));
      if w.VariableCode? || w.ConstantCode? { CodeWords(w); } else { BodyBelow(w); FitsParts(Body(w), Rank(w)); }
    }
  }

  /** The code words of variables and constants. */
  lemma {:induction false} CodeWords(w: Word)
    requires w.VariableCode? || w.ConstantCode?
    ensures CodeSize(Body(w)) <= 64
  {}

  ghost predicate IsCell(w: Word, k: nat, a: int) { k < |Compiled(w)| && a == PlaceOf(w) + 4 * k }

  /** The cell of the image at `a`: a cell of some word, or 0 where there is none. */
  ghost function Content(a: int): Cell {
    if w: Word, k: nat :| IsCell(w, k, a) then Compiled(w)[k] else 0
  }

  ghost function TheImage(): Image {
    Image(PlaceOf, map a: int | 0 <= a < END_OF_IMAGE :: Content(a))
  }

  /** The words in the order of their definition. */
  function WordAt(n: nat): Word { if n < 21 then EarlyWord(n) else LateWord(n) }

  function EarlyWord(n: nat): Word {
    match n
    case 0 => VariableCode case 1 => ConstantCode case 2 => Temp case 3 => DROP case 4 => DUP
    case 5 => SWAP case 6 => ROT case 7 => OVER case 8 => RFETCH case 9 => True0 case 10 => False0
    case 11 => BOOLEAN case 12 => NOT case 13 => AND case 14 => OR case 15 => XOR case 16 => MinInt
    case 17 => Zero case 18 => DEC case 19 => TWOPLUS case _ => TWOMINUS
  }

  function LateWord(n: nat): Word {
    match n
    case 21 => ISNEG case 22 => ISPOS case 23 => CELLPLUS case 24 => BRANCH case 25 => QBRANCH
    case 26 => QDUP case 27 => TUCK case 28 => NIP case 29 => TWODUP case 30 => TWODROP
    case 31 => NEGATE case 32 => ABS case 33 => PLUS case 34 => MINUS case 35 => ULESS
    case 36 => UTIMES case 37 => UDIVMOD case 38 => TIMES case 39 => DIVMOD case 40 => EQUAL
    case _ => LESS
  }

  lemma {:induction false} OneWordOfRank(w: Word)
    ensures WordAt(Rank(w)) == w
  {
    hide EarlyWord, LateWord;
    if Rank(w) < 21 { EarlyRank(w); } else { LateRank(w); }
  }

  lemma {:induction false} EarlyRank(w: Word)
    requires Rank(w) < 21
    ensures EarlyWord(Rank(w)) == w
  {}

  lemma {:induction false} LateRank(w: Word)
    requires Rank(w) >= 21
    ensures LateWord(Rank(w)) == w
  {}

  /** An address belongs to one cell of one word. */
  lemma {:induction false} OneCell(v: Word, j: nat, w: Word, k: nat)
    requires j < 256 && k < 256 && PlaceOf(v) + 4 * j == PlaceOf(w) + 4 * k
    ensures v == w && j == k
  {
    PlaceIs(v);
    PlaceIs(w);
    hide Rank, PlaceOf, WordAt;
    OneWordOfRank(v);
    OneWordOfRank(w);
  }

  lemma {:induction false} PlaceIs(w: Word)
    ensures PlaceOf(w) == (Rank(w) + 1) * ROOM
  {}

  lemma {:induction false} ContentIs(w: Word, k: nat)
    requires k < |Compiled(w)|
    ensures Content(PlaceOf(w) + 4 * k) == Compiled(w)[k]
  {
    hide Compiled, PlaceOf;
    var a := PlaceOf(w) + 4 * k;
    assert IsCell(w, k, a);
    CompiledLength(w);
    forall v: Word, j: nat | IsCell(v, j, a) ensures v == w && j == k {
      CompiledLength(v);
      OneCell(v, j, w, k);
    }
  }

  /** The hypothesis of the processor theorem can be met. */
  lemma {:induction false} ImageExists() returns (i: Image)
    ensures Loaded(i) && TempCell(i) in i.mem
  {
    i := TheImage();
    hide WordCells, PlaceOf, Content;
    forall w ensures i.place(w) > DUMP && CellsAt(i, i.place(w), WordCells(i.place, w)) {
      assert WordCells(i.place, w) == Compiled(w);
      CompiledLength(w);
      forall k | 0 <= k < |Compiled(w)| ensures CellAt(i, i.place(w) + 4 * k, Compiled(w)[k]) {
        ContentIs(w, k);
        NotTemp(w, k);
      }
    }
  }

  /** The data cell of TEMP is no cell of any word. */
  lemma {:induction false} NotTemp(w: Word, k: nat)
    requires k < |Compiled(w)|
    ensures PlaceOf(w) + 4 * k != PlaceOf(Temp) + 4
  {
    hide Compiled, PlaceOf;
    CompiledLength(w);
    if PlaceOf(w) + 4 * k == PlaceOf(Temp) + 4 { OneCell(w, k, Temp, 1); }
  }
}
