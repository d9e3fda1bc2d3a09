/** Every offset of compiled code lands on an instruction boundary of the same body. */
module Boundaries {
  import opened ControlSyntax
  import opened ControlCompiler
  import opened OnePass
  import opened Structured
  import opened CompilerCorrectness
  import F = FollowSets

  /** Tokens followed by an operand cell, and those whose operand is a branch offset. */
  predicate HasOperand(t: Token) { t.LitT? || IsJump(t) }

  predicate IsJump(t: Token) {
    t.Branch? || t.QBranch? || t.DoT? || t.QDoT? || t.LoopT? || t.PlusLoopT?
  }

  /** The cells are a sequence of complete instructions. */
  ghost predicate Decodes(cells: seq<Cell>) {
    cells == [] ||
    (cells[0].Tok? &&
     if HasOperand(cells[0].t) then |cells| >= 2 && cells[1].Val? && Decodes(cells[2..])
     else Decodes(cells[1..]))
  }

  /** Position `i` starts an instruction, or follows the last one. */
  ghost predicate IsBound(cells: seq<Cell>, i: int)
    requires Decodes(cells)
  {
    i == 0 ||
    (cells != [] && var n := if HasOperand(cells[0].t) then 2 else 1; i >= n && IsBound(cells[n..], i - n))
  }

  lemma {:induction false} DecodesAppend(x: seq<Cell>, y: seq<Cell>)
    requires Decodes(x) && Decodes(y)
    ensures Decodes(x + y)
  {
    if x == [] {
      assert x + y == y;
    } else {
      var n := if HasOperand(x[0].t) then 2 else 1;
      assert (x + y)[n..] == x[n..] + y;
      DecodesAppend(x[n..], y);
    }
  }

  lemma {:induction false} BoundAppend(x: seq<Cell>, y: seq<Cell>, i: int)
    requires Decodes(x) && Decodes(y) && Decodes(x + y)
    ensures IsBound(x + y, i) <==> IsBound(x, i) || (i >= |x| && IsBound(y, i - |x|))
  {
    if x == [] {
      assert x + y == y;
      if i < 0 { NoNegative(y, i); }
    } else {
      var n := if HasOperand(x[0].t) then 2 else 1;
      assert (x + y)[n..] == x[n..] + y;
      DecodesAppend(x[n..], y);
      BoundAppend(x[n..], y, i - n);
    }
  }

  lemma {:induction false} NoNegative(x: seq<Cell>, i: int)
    requires Decodes(x) && i < 0
    ensures !IsBound(x, i)
  {}

  lemma {:induction false} BoundRange(x: seq<Cell>, i: int)
    requires Decodes(x)
    ensures IsBound(x, |x|)
    ensures IsBound(x, i) ==> 0 <= i <= |x|
    ensures IsBound(x, i) && i < |x| ==>
              x[i].Tok? && (HasOperand(x[i].t) ==> i + 1 < |x| && x[i + 1].Val?)
  {
    if x != [] {
      var n := if HasOperand(x[0].t) then 2 else 1;
      BoundRange(x[n..], i - n);
      assert |x| - n == |x[n..]|;
      if i >= n && i < |x| { assert x[i] == x[n..][i - n]; }
    }
  }

  /** The instruction at `i` is a jump; `Goal` is where it goes. */
  predicate JumpAt(cells: seq<Cell>, i: int) {
    0 <= i && i + 1 < |cells| && cells[i].Tok? && IsJump(cells[i].t) && cells[i + 1].Val?
  }

  function Goal(cells: seq<Cell>, i: int): int
    requires JumpAt(cells, i)
  {
    i + 1 + cells[i + 1].n
  }

  /** Each jump goes to a boundary of these cells or to one of the outside positions `ext`. */
  ghost predicate JumpsTo(cells: seq<Cell>, ext: set<int>) {
    && Decodes(cells)
    && forall i {:trigger IsBound(cells, i)} :: IsBound(cells, i) && JumpAt(cells, i) ==>
         Goal(cells, i) in ext || IsBound(cells, Goal(cells, i))
  }

  /** Two pieces side by side: the outside targets of each must be met by the whole. */
  lemma {:induction false} Beside(x: seq<Cell>, e: set<int>, y: seq<Cell>, f: set<int>, g: set<int>)
    requires JumpsTo(x, e) && JumpsTo(y, f) && Decodes(x + y)
    requires forall t :: t in e ==> t in g || IsBound(x + y, t)
    requires forall t :: t in f ==> |x| + t in g || IsBound(x + y, |x| + t)
    ensures JumpsTo(x + y, g)
  {
    var z := x + y;
    forall i | IsBound(z, i) && JumpAt(z, i)
      ensures Goal(z, i) in g || IsBound(z, Goal(z, i))
    {
      BoundAppend(x, y, i);
      BoundAppend(x, y, Goal(z, i));
      BoundRange(x, i);
      if i < |x| {
        assert JumpAt(x, i) && Goal(x, i) == Goal(z, i);
      } else {
        if !IsBound(y, i - |x|) { assert i == |x| && IsBound(y, 0); }
        assert JumpAt(y, i - |x|) && Goal(y, i - |x|) == Goal(z, i) - |x|;
        if Goal(y, i - |x|) < 0 { NoNegative(y, Goal(y, i - |x|)); }
      }
    }
  }

  lemma {:induction false} Instr(t: Token, n: int)
    requires IsJump(t)
    ensures JumpsTo([Tok(t), Val(n)], {n + 1})
    ensures IsBound([Tok(t), Val(n)], 2)
  {
    var c := [Tok(t), Val(n)];
    assert c[2..] == [];
    forall i | IsBound(c, i) && JumpAt(c, i)
      ensures Goal(c, i) in {n + 1}
    {
      assert i == 0;
    }
  }

  /** The seam between two pieces, and the end of the second, are boundaries of the whole. */
  lemma {:induction false} Seam(x: seq<Cell>, y: seq<Cell>)
    requires Decodes(x) && Decodes(y)
    ensures Decodes(x + y) && IsBound(x + y, 0) && IsBound(x + y, |x|) && IsBound(x + y, |x| + |y|)
    ensures forall i {:trigger IsBound(x + y, i)} :: IsBound(x, i) ==> IsBound(x + y, i)
  {
    DecodesAppend(x, y);
    BoundRange(x, 0);
    BoundRange(y, 0);
    BoundAppend(x, y, |x|);
    BoundAppend(x, y, |x| + |y|);
    forall i | IsBound(x, i) ensures IsBound(x + y, i) { BoundAppend(x, y, i); }
  }

  /** The one outside target of a piece `pos` cells into its body: the start of the body. */
  function Top(pos: int): set<int> { {0 - pos} }

  /** The macro bodies a unit copies are self-contained. */
  ghost predicate ClosedBodies(u: Unit) {
    forall d :: 0 <= d < |u.bodies| ==> JumpsTo(u.bodies[d], {})
  }

  /** The only outside target: `tail-recurse` goes back to the start of the body. */
  lemma {:induction false} EmitLands(c: Stmt, u: Unit, pos: nat)
    requires ClosedBodies(u)
    ensures JumpsTo(Emit(c, u, pos), Top(pos))
    decreases c, 1
  {
    hide JumpsTo, ClosedBodies;
    match c
    case Skip => EmptyLands(Top(pos));
    case Seq(a, b) =>
      var x := Emit(a, u, pos);
      var y := Emit(b, u, pos + |x|);
      EmitLands(a, u, pos);
      EmitLands(b, u, pos + |x|);
      SeqLands(x, y, pos);
    case Atom(w) => AtomLands(w, u, pos);
    case If(t) => EmitLands(t, u, pos + 2); IfLands(Emit(t, u, pos + 2), pos);
    case IfElse(t, e) =>
      var x := Emit(t, u, pos + 2);
      EmitLands(t, u, pos + 2);
      EmitLands(e, u, pos + |x| + 4);
      IfElseLands(x, Emit(e, u, pos + |x| + 4), pos);
    case Again(b) => EmitLands(b, u, pos); BackLands(Emit(b, u, pos), Branch, pos);
    case Until(b) => EmitLands(b, u, pos); BackLands(Emit(b, u, pos), QBranch, pos);
    case While(t, b) =>
      var x := Emit(t, u, pos);
      EmitLands(t, u, pos);
      EmitLands(b, u, pos + |x| + 2);
      WhileLands(x, Emit(b, u, pos + |x| + 2), pos);
    case Case(arms) => ArmsLand(arms, u, pos);
    case Do(q, b, p) =>
      EmitLands(b, u, pos + 2);
      DoLands(Emit(b, u, pos + 2), if q then QDoT else DoT, if p then PlusLoopT else LoopT, pos);
  }

  lemma {:induction false} EmptyLands(e: set<int>)
    ensures JumpsTo([], e)
  {}

  lemma {:induction false} SeqLands(x: seq<Cell>, y: seq<Cell>, pos: nat)
    requires JumpsTo(x, Top(pos)) && JumpsTo(y, Top(pos + |x|))
    ensures JumpsTo(x + y, Top(pos))
  {
    Seam(x, y);
    Beside(x, Top(pos), y, Top(pos + |x|), Top(pos));
  }

  lemma {:induction false} AtomLands(w: Word, u: Unit, pos: nat)
    requires ClosedBodies(u)
    ensures JumpsTo(EmitAtom(w, u, pos), Top(pos))
  {
    var x := EmitAtom(w, u, pos);
    if w.WTailRecurse? {
      Instr(Branch, -(pos + 1));
    } else if w.WLit? {
      assert x[2..] == [];
    } else if !w.WMacro? && x != [] {
      PlainInstr(x[0].t);
    }
  }

  lemma {:induction false} PlainInstr(t: Token)
    requires !HasOperand(t)
    ensures JumpsTo([Tok(t)], {})
  {
    assert [Tok(t)][1..] == [];
  }

  lemma {:induction false} IfLands(x: seq<Cell>, pos: nat)
    requires JumpsTo(x, Top(pos + 2))
    ensures JumpsTo([Tok(QBranch), Val(|x| + 1)] + x, Top(pos))
  {
    var h := [Tok(QBranch), Val(|x| + 1)];
    Instr(QBranch, |x| + 1);
    Seam(h, x);
    Beside(h, {|x| + 2}, x, Top(pos + 2), Top(pos));
  }

  lemma {:induction false} BackLands(x: seq<Cell>, t: Token, pos: nat)
    requires JumpsTo(x, Top(pos)) && IsJump(t)
    ensures JumpsTo(x + [Tok(t), Val(-(|x| + 1))], Top(pos))
  {
    Instr(t, -(|x| + 1));
    Seam(x, [Tok(t), Val(-(|x| + 1))]);
    Beside(x, Top(pos), [Tok(t), Val(-(|x| + 1))], {-|x|}, Top(pos));
  }

  lemma {:induction false} DoLands(x: seq<Cell>, t0: Token, t1: Token, pos: nat)
    requires JumpsTo(x, Top(pos + 2)) && IsJump(t0) && IsJump(t1)
    ensures JumpsTo([Tok(t0), Val(|x| + 3)] + x + [Tok(t1), Val(-(|x| + 1))], Top(pos))
  {
    var h, l := [Tok(t0), Val(|x| + 3)], [Tok(t1), Val(-(|x| + 1))];
    var end := Top(pos) + {|x| + 4};
    Instr(t0, |x| + 3);
    Instr(t1, -(|x| + 1));
    Seam(h, x);
    Beside(h, {|x| + 4}, x, Top(pos + 2), end);
    Seam(h + x, l);
    Beside(h + x, end, l, {-|x|}, Top(pos));
  }

  lemma {:induction false} IfElseLands(x: seq<Cell>, y: seq<Cell>, pos: nat)
    requires JumpsTo(x, Top(pos + 2)) && JumpsTo(y, Top(pos + |x| + 4))
    ensures JumpsTo([Tok(QBranch), Val(|x| + 3)] + x + [Tok(Branch), Val(|y| + 1)] + y, Top(pos))
  {
    var h, j := [Tok(QBranch), Val(|x| + 3)], [Tok(Branch), Val(|y| + 1)];
    var els, end := Top(pos) + {|x| + 4}, Top(pos) + {|x| + |y| + 4};
    Instr(QBranch, |x| + 3);
    Instr(Branch, |y| + 1);
    Seam(h, x);
    Beside(h, {|x| + 4}, x, Top(pos + 2), els);
    Seam(h + x, j);
    Beside(h + x, els, j, {|y| + 2}, end);
    Seam(h + x + j, y);
    Beside(h + x + j, end, y, Top(pos + |x| + 4), Top(pos));
  }

  lemma {:induction false} WhileLands(x: seq<Cell>, y: seq<Cell>, pos: nat)
    requires JumpsTo(x, Top(pos)) && JumpsTo(y, Top(pos + |x| + 2))
    ensures JumpsTo(x + [Tok(QBranch), Val(|y| + 3)] + y + [Tok(Branch), Val(-(|x| + |y| + 3))], Top(pos))
  {
    var q, j := [Tok(QBranch), Val(|y| + 3)], [Tok(Branch), Val(-(|x| + |y| + 3))];
    var end := Top(pos) + {|x| + |y| + 4};
    Instr(QBranch, |y| + 3);
    Instr(Branch, -(|x| + |y| + 3));
    Seam(x, q);
    Beside(x, Top(pos), q, {|y| + 4}, end);
    Seam(x + q, y);
    Beside(x + q, end, y, Top(pos + |x| + 2), end);
    Seam(x + q + y, j);
    Beside(x + q + y, end, j, {-(|x| + |y| + 2)}, Top(pos));
  }

  lemma {:induction false} ArmsLand(arms: Arms, u: Unit, pos: nat)
    requires ClosedBodies(u)
    ensures JumpsTo(EmitArms(arms, u, pos), Top(pos))
    decreases arms, 1
  {
    hide JumpsTo, ClosedBodies, Top, Emit;
    match arms
    case Default(d) =>
      EmitLands(d, u, pos);
      DefaultLands(Emit(d, u, pos), pos);
    case Arm(p, b, rest) =>
      var x := Emit(p, u, pos);
      var y := Emit(b, u, pos + |x| + 5);
      EmitLands(p, u, pos);
      EmitLands(b, u, pos + |x| + 5);
      ArmsLand(rest, u, pos + |x| + |y| + 7);
      ArmLands(x, y, EmitArms(rest, u, pos + |x| + |y| + 7), pos);
  }

  lemma {:induction false} DefaultLands(x: seq<Cell>, pos: nat)
    requires JumpsTo(x, Top(pos))
    ensures JumpsTo(x + [Tok(Drop)], Top(pos))
  {
    PlainInstr(Drop);
    Seam(x, [Tok(Drop)]);
    Beside(x, Top(pos), [Tok(Drop)], {}, Top(pos));
  }

  lemma {:induction false} ArmLands(x: seq<Cell>, y: seq<Cell>, z: seq<Cell>, pos: nat)
    requires JumpsTo(x, Top(pos)) && JumpsTo(y, Top(pos + |x| + 5)) && JumpsTo(z, Top(pos + |x| + |y| + 7))
    ensures JumpsTo(x + [Tok(Over), Tok(Equals), Tok(QBranch), Val(|y| + 4), Tok(Drop)] +
                    y + [Tok(Branch), Val(|z| + 1)] + z, Top(pos))
  {
    var test, j := [Tok(Over), Tok(Equals), Tok(QBranch), Val(|y| + 4), Tok(Drop)], [Tok(Branch), Val(|z| + 1)];
    var skip, end := Top(pos) + {|x| + |y| + 7}, Top(pos) + {|x| + |y| + |z| + 7};
    TestLands(|y| + 4);
    Instr(Branch, |z| + 1);
    Seam(x, test);
    Beside(x, Top(pos), test, {|y| + 7}, skip);
    Seam(x + test, y);
    Beside(x + test, skip, y, Top(pos + |x| + 5), skip);
    Seam(x + test + y, j);
    Beside(x + test + y, skip, j, {|z| + 2}, end);
    Seam(x + test + y + j, z);
    Beside(x + test + y + j, end, z, Top(pos + |x| + |y| + 7), Top(pos));
  }

  lemma {:induction false} TestLands(n: int)
    ensures JumpsTo([Tok(Over), Tok(Equals), Tok(QBranch), Val(n), Tok(Drop)], {n + 3})
  {
    var a, b, q, d := [Tok(Over)], [Tok(Equals)], [Tok(QBranch), Val(n)], [Tok(Drop)];
    PlainInstr(Over);
    PlainInstr(Equals);
    PlainInstr(Drop);
    Instr(QBranch, n);
    Seam(q, d);
    Beside(q, {n + 1}, d, {}, {n + 1});
    Seam(b, q + d);
    Beside(b, {}, q + d, {n + 1}, {n + 2});
    Seam(a, b + (q + d));
    Beside(a, {}, b + (q + d), {n + 2}, {n + 3});
    assert a + (b + (q + d)) == [Tok(Over), Tok(Equals), Tok(QBranch), Val(n), Tok(Drop)];
  }

  /** Theorem: in every body of a program, each offset lands on an instruction boundary of
      that body. (At position 0 the outside target is the body's own start.) */
  lemma {:induction false} OffsetsLandOnBoundaries(defs: seq<Stmt>, k: nat)
    requires k < |defs|
    ensures JumpsTo(Body(defs, k), {})
    decreases k
  {
    var u := Unit(k, Bodies(defs, k));
    forall d | 0 <= d < |u.bodies| ensures JumpsTo(u.bodies[d], {}) {
      OffsetsLandOnBoundaries(defs, d);
    }
    EmitLands(defs[k], u, 0);
  }

  /** Joined with the acceptor: whatever word sequence passes the follow-set checks back to
      base depth, the cells it has appended are whole instructions and every resolved mark is
      an offset to an instruction between the start and `here`. */
  lemma {:induction false} AcceptedLands(s: CState, u: Unit, ws: seq<Word>)
    requires At(s, u, 0) && s.cs != [] && F.FlagFree(s.cs[0]) && s.marked == s.resolved == [] && ClosedBodies(u)
    requires forall w :: w in ws ==> (w.WMacro? ==> w.d < |u.bodies|)
    ensures var r := CompileWords(s, ws);
            r.Ok? && |r.s.cs| == |s.cs| ==> s.dict <= r.s.dict && JumpsTo(r.s.dict[|s.dict|..], {})
  {
    F.ExactAcceptor(s, u, ws);
    var r := CompileWords(s, ws);
    if r.Ok? && |r.s.cs| == |s.cs| {
      var c :| Proper(c) && Flatten(c) == ws;
      F.KnownIsMacrosKnown(c, |u.bodies|);
      OnePassIsStructured(s, c, u, 0);
      EmitLands(c, u, 0);
      hide Emit;
      assert r.s.dict[|s.dict|..] == Emit(c, u, 0);
    }
  }
}
