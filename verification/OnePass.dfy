/** The one-pass compiler agrees with a structured, position-independent code generator:
    compiling the words of a well-nested statement appends exactly its emitted cells and
    leaves the parameter stack as it was. */
module OnePass {
  import opened ControlSyntax
  import opened ControlCompiler

  /** Everything `Emit` needs besides the statement: the entry being compiled and the
      bodies that macro words copy. */
  datatype Unit = Unit(self: nat, bodies: seq<seq<Cell>>)

  /** Cells of an atomic word; `pos` is its distance from the start of the body. */
  function EmitAtom(w: Word, u: Unit, pos: nat): seq<Cell> {
    match w
    case WPlain(id) => [Tok(Prim(id))]
    case WLit(n) => [Tok(LitT), Val(n)]
    case WCall(d) => [Tok(Colon(d))]
    case WMacro(d) => if d < |u.bodies| then u.bodies[d] else []
    case WRecurse => [Tok(Colon(u.self))]
    case WTailRecurse => [Tok(Branch), Val(-(pos + 1))]
    case WExit => [Tok(Semi)]
    case WI => [Tok(IT)]
    case WJ => [Tok(JT)]
    case WLeave => [Tok(LeaveT)]
    case _ => []
  }

  /** The cells of a statement. All offsets are relative to the cell that holds them. */
  function Emit(c: Stmt, u: Unit, pos: nat): seq<Cell> {
    match c
    case Skip => []
    case Seq(a, b) => var x := Emit(a, u, pos); x + Emit(b, u, pos + |x|)
    case Atom(w) => EmitAtom(w, u, pos)
    case If(t) =>
      var x := Emit(t, u, pos + 2);
      [Tok(QBranch), Val(|x| + 1)] + x
    case IfElse(t, e) =>
      var x := Emit(t, u, pos + 2);
      var y := Emit(e, u, pos + |x| + 4);
      [Tok(QBranch), Val(|x| + 3)] + x + [Tok(Branch), Val(|y| + 1)] + y
    case Again(b) =>
      var x := Emit(b, u, pos);
      x + [Tok(Branch), Val(-(|x| + 1))]
    case Until(b) =>
      var x := Emit(b, u, pos);
      x + [Tok(QBranch), Val(-(|x| + 1))]
    case While(t, b) =>
      var x := Emit(t, u, pos);
      var y := Emit(b, u, pos + |x| + 2);
      x + [Tok(QBranch), Val(|y| + 3)] + y + [Tok(Branch), Val(-(|x| + |y| + 3))]
    case Case(arms) => EmitArms(arms, u, pos)
    case Do(q, b, p) =>
      var x := Emit(b, u, pos + 2);
      [Tok(if q then QDoT else DoT), Val(|x| + 3)] + x +
      [Tok(if p then PlusLoopT else LoopT), Val(-(|x| + 1))]
  }

  function EmitArms(arms: Arms, u: Unit, pos: nat): seq<Cell> {
    match arms
    case Default(d) => Emit(d, u, pos) + [Tok(Drop)]
    case Arm(p, b, rest) =>
      var x := Emit(p, u, pos);
      var y := Emit(b, u, pos + |x| + 5);
      var z := EmitArms(rest, u, pos + |x| + |y| + 7);
      x + [Tok(Over), Tok(Equals), Tok(QBranch), Val(|y| + 4), Tok(Drop)] +
      y + [Tok(Branch), Val(|z| + 1)] + z
  }

  /** The compiler's macro table finds in the dictionary the bodies the generator copies. */
  ghost predicate MacrosMatch(s: CState, bodies: seq<seq<Cell>>) {
    && |s.macros| == |bodies|
    && forall d :: 0 <= d < |bodies| ==>
         && s.macros[d].size == |bodies[d]|
         && s.macros[d].body + s.macros[d].size <= s.start <= |s.dict|
         && s.dict[s.macros[d].body..s.macros[d].body + s.macros[d].size] == bodies[d]
  }

  /** `s` is a state in which unit `u` is under construction, `pos` cells into its body. */
  ghost predicate At(s: CState, u: Unit, pos: nat) {
    s.self == u.self && |s.dict| == s.start + pos && MacrosMatch(s, u.bodies)
  }

  /** Every macro word of the statement names an entry of the table. */
  predicate MacrosKnown(c: Stmt, n: nat) {
    match c
    case Skip => true
    case Seq(a, b) => MacrosKnown(a, n) && MacrosKnown(b, n)
    case Atom(w) => w.WMacro? ==> w.d < n
    case If(t) => MacrosKnown(t, n)
    case IfElse(t, e) => MacrosKnown(t, n) && MacrosKnown(e, n)
    case Again(b) => MacrosKnown(b, n)
    case Until(b) => MacrosKnown(b, n)
    case While(t, b) => MacrosKnown(t, n) && MacrosKnown(b, n)
    case Case(arms) => MacrosKnownArms(arms, n)
    case Do(_, b, _) => MacrosKnown(b, n)
  }

  predicate MacrosKnownArms(arms: Arms, n: nat) {
    match arms
    case Default(d) => MacrosKnown(d, n)
    case Arm(p, b, rest) => MacrosKnown(p, n) && MacrosKnown(b, n) && MacrosKnownArms(rest, n)
  }

  /** `r` is `s` with `cells` appended and nothing else changed but the mark history. */
  ghost predicate Extends(r: Status, s: CState, cells: seq<Cell>) {
    r.Ok? && r.s == s.(dict := s.dict + cells, marked := r.s.marked, resolved := r.s.resolved)
  }

  lemma {:induction false} AtMove(s: CState, s': CState, u: Unit, pos: nat, cells: seq<Cell>)
    requires At(s, u, pos)
    requires s'.dict == s.dict + cells
    requires s'.self == s.self && s'.start == s.start && s'.macros == s.macros
    ensures At(s', u, pos + |cells|)
  {
    forall d | 0 <= d < |u.bodies|
      ensures s'.dict[s.macros[d].body..s.macros[d].body + s.macros[d].size] == u.bodies[d]
    {
      assert s'.dict[s.macros[d].body..s.macros[d].body + s.macros[d].size] ==
             s.dict[s.macros[d].body..s.macros[d].body + s.macros[d].size];
    }
  }

  /** A statement between an opening and a closing word: thread the three compilations. */
  lemma {:induction false} Bracket(s: CState, a: Word, mid: seq<Word>, z: Word)
    ensures CompileWords(s, [a] + mid + [z]) ==
            (var r1 := CompileWord(s, a);
             if !r1.Ok? then r1 else
             var r2 := CompileWords(r1.s, mid);
             if !r2.Ok? then r2 else CompileWord(r2.s, z))
  {
    CompileAppend(s, [a] + mid, [z]);
    CompileAppend(s, [a], mid);
    CompileOne(s, a);
    var r := CompileWords(s, [a] + mid);
    if r.Ok? { CompileOne(r.s, z); }
  }

  lemma {:induction false} Bracket2(s: CState, a: Word, m1: seq<Word>, b: Word, m2: seq<Word>, z: Word)
    ensures CompileWords(s, [a] + m1 + [b] + m2 + [z]) ==
            (var r1 := CompileWord(s, a);
             if !r1.Ok? then r1 else
             var r2 := CompileWords(r1.s, m1);
             if !r2.Ok? then r2 else
             var r3 := CompileWord(r2.s, b);
             if !r3.Ok? then r3 else
             var r4 := CompileWords(r3.s, m2);
             if !r4.Ok? then r4 else CompileWord(r4.s, z))
  {
    CompileAppend(s, [a] + m1 + [b] + m2, [z]);
    CompileAppend(s, [a] + m1 + [b], m2);
    Bracket(s, a, m1, b);
    var r := CompileWords(s, [a] + m1 + [b] + m2);
    if r.Ok? { CompileOne(r.s, z); }
  }

  /** Main theorem: one pass with back-patching produces the structured code. */
  lemma {:induction false} OnePassIsStructured(s: CState, c: Stmt, u: Unit, pos: nat)
    requires Proper(c) && MacrosKnown(c, |u.bodies|) && At(s, u, pos)
    ensures Extends(CompileWords(s, Flatten(c)), s, Emit(c, u, pos))
    decreases c, 1
  {
    match c
    case Skip => assert s.dict + [] == s.dict;
    case Seq(a, b) => OnePassSeq(s, a, b, u, pos);
    case Atom(w) => OnePassAtom(s, w, u, pos);
    case If(t) => OnePassIf(s, t, u, pos);
    case IfElse(t, e) => OnePassIfElse(s, t, e, u, pos);
    case Again(b) => OnePassBack(s, b, u, pos, WAgain);
    case Until(b) => OnePassBack(s, b, u, pos, WUntil);
    case While(t, b) => OnePassWhile(s, t, b, u, pos);
    case Case(arms) => OnePassCase(s, arms, u, pos);
    case Do(q, b, p) => OnePassDo(s, q, b, p, u, pos);
  }

  lemma {:induction false} OnePassSeq(s: CState, a: Stmt, b: Stmt, u: Unit, pos: nat)
    requires Proper(a) && MacrosKnown(a, |u.bodies|) && At(s, u, pos)
    requires Proper(b) && MacrosKnown(b, |u.bodies|)
    ensures Extends(CompileWords(s, Flatten(Seq(a, b))), s, Emit(Seq(a, b), u, pos))
    decreases Seq(a, b), 0
  {
    assert Flatten(Seq(a, b)) == Flatten(a) + Flatten(b);
    var x := Emit(a, u, pos);
    assert Emit(Seq(a, b), u, pos) == x + Emit(b, u, pos + |x|);
    var r := CompileWords(s, Flatten(a));
    OnePassIsStructured(s, a, u, pos);
    assert r.Ok? && r.s.dict == s.dict + x && r.s.self == s.self && r.s.start == s.start && r.s.macros == s.macros;
    hide *;
    AtMove(s, r.s, u, pos, x);
    OnePassIsStructured(r.s, b, u, pos + |x|);
    CompileAppend(s, Flatten(a), Flatten(b));
    ExtendsTwice(CompileWords(r.s, Flatten(b)), r, s, x, Emit(b, u, pos + |x|));
  }

  lemma {:induction false} ExtendsTwice(r': Status, r: Status, s: CState, x: seq<Cell>, y: seq<Cell>)
    requires Extends(r, s, x) && Extends(r', r.s, y)
    ensures Extends(r', s, x + y)
  {
    assert s.dict + x + y == s.dict + (x + y);
  }

  lemma {:induction false} OnePassAtom(s: CState, w: Word, u: Unit, pos: nat)
    requires IsAtom(w) && MacrosKnown(Atom(w), |u.bodies|) && At(s, u, pos)
    ensures Extends(CompileWords(s, [w]), s, EmitAtom(w, u, pos))
  {
    CompileOne(s, w);
    if w.WTailRecurse? {
      assert s.dict + EmitAtom(w, u, pos) == s.dict + [Tok(Branch)] + [Val(-(pos + 1))];
    }
  }

  lemma {:induction false} OnePassCase(s: CState, arms: Arms, u: Unit, pos: nat)
    requires ProperArms(arms) && MacrosKnownArms(arms, |u.bodies|) && At(s, u, pos)
    ensures Extends(CompileWords(s, Flatten(Case(arms))), s, Emit(Case(arms), u, pos))
    decreases Case(arms), 0
  {
    CompileAppend(s, [WCase], FlattenArms(arms));
    CompileOne(s, WCase);
    var r := CompileWord(s, WCase).s;
    AtMove(s, r, u, pos, []);
    assert r.cs == [OF + ENDCASE] + [] + [0] + s.cs;
    OnePassArms(r, arms, u, pos, [], s.cs);
    assert Patched(s.dict + EmitArms(arms, u, pos), []) == s.dict + EmitArms(arms, u, pos);
  }

  lemma {:induction false} OnePassIf(s: CState, t: Stmt, u: Unit, pos: nat)
    requires Proper(t) && MacrosKnown(t, |u.bodies|) && At(s, u, pos)
    ensures Extends(CompileWords(s, Flatten(If(t))), s, Emit(If(t), u, pos))
    decreases If(t), 0
  {
    hide CompileWords, CompileWord, MacrosMatch;
    var s1 := Opened(s, u, pos, WIf);
    OnePassIsStructured(s1, t, u, pos + 2);
    IfThen(s, Flatten(t), Emit(t, u, pos + 2));
  }

  /** An opening word leaves the compiler two cells on, or none for `begin`. */
  lemma {:induction false} Opened(s: CState, u: Unit, pos: nat, w: Word) returns (s1: CState)
    requires At(s, u, pos)
    requires w == WIf || w == WDo || w == WQDo || w == WBegin
    ensures CompileWord(s, w) == Ok(s1)
    ensures At(s1, u, if w == WBegin then pos else pos + 2)
  {
    s1 := CompileWord(s, w).s;
    var cells := if w == WBegin then [] else
      [Tok(if w == WIf then QBranch else if w == WDo then DoT else QDoT), Val(0)];
    assert s1.dict == s.dict + cells;
    AtMove(s, s1, u, pos, cells);
  }

  lemma {:induction false} IfThen(s: CState, ws: seq<Word>, x: seq<Cell>)
    requires var s1 := CompileWord(s, WIf).s; Extends(CompileWords(s1, ws), s1, x)
    ensures Extends(CompileWords(s, [WIf] + ws + [WThen]), s, [Tok(QBranch), Val(|x| + 1)] + x)
  {
    hide CompileWords;
    Bracket(s, WIf, ws, WThen);
    var s2 := CompileWords(CompileWord(s, WIf).s, ws).s;
    var m := |s.dict| + 1;
    assert s2.dict[m := Val(|s2.dict| - m)] == s.dict + ([Tok(QBranch), Val(|x| + 1)] + x);
  }

  lemma {:induction false} OnePassIfElse(s: CState, t: Stmt, e: Stmt, u: Unit, pos: nat)
    requires Proper(t) && MacrosKnown(t, |u.bodies|) && At(s, u, pos)
    requires Proper(e) && MacrosKnown(e, |u.bodies|)
    ensures Extends(CompileWords(s, Flatten(IfElse(t, e))), s, Emit(IfElse(t, e), u, pos))
    decreases IfElse(t, e), 0
  {
    hide CompileWords, CompileWord, MacrosMatch;
    var s1 := Opened(s, u, pos, WIf);
    OnePassIsStructured(s1, t, u, pos + 2);
    var x := Emit(t, u, pos + 2);
    var s3 := ElseWord(s, Flatten(t), x);
    AtMove(s, s3, u, pos, [Tok(QBranch), Val(|x| + 3)] + x + [Tok(Branch), Val(0)]);
    OnePassIsStructured(s3, e, u, pos + |x| + 4);
    IfElseThen(s, Flatten(t), x, s3, Flatten(e), Emit(e, u, pos + |x| + 4));
  }

  /** The state after `else`: the first branch is resolved, the second one open. */
  lemma {:induction false} ElseWord(s: CState, ws: seq<Word>, x: seq<Cell>) returns (s3: CState)
    requires var s1 := CompileWord(s, WIf).s; Extends(CompileWords(s1, ws), s1, x)
    ensures var s2 := CompileWords(CompileWord(s, WIf).s, ws).s; CompileWord(s2, WElse) == Ok(s3)
    ensures s3 == s.(dict := s.dict + ([Tok(QBranch), Val(|x| + 3)] + x + [Tok(Branch), Val(0)]),
                     cs := [THEN, |s.dict| + |x| + 3] + s.cs, marked := s3.marked, resolved := s3.resolved)
  {
    hide CompileWords;
    var s2 := CompileWords(CompileWord(s, WIf).s, ws).s;
    s3 := CompileWord(s2, WElse).s;
    assert s3.dict == s.dict + ([Tok(QBranch), Val(|x| + 3)] + x + [Tok(Branch), Val(0)]);
  }

  lemma {:induction false} IfElseThen(s: CState, ws: seq<Word>, x: seq<Cell>, s3: CState, vs: seq<Word>, y: seq<Cell>)
    requires CompileWord(s, WIf).Ok?
    requires var s1 := CompileWord(s, WIf).s; Extends(CompileWords(s1, ws), s1, x)
    requires var s2 := CompileWords(CompileWord(s, WIf).s, ws).s; CompileWord(s2, WElse) == Ok(s3)
    requires s3 == s.(dict := s.dict + ([Tok(QBranch), Val(|x| + 3)] + x + [Tok(Branch), Val(0)]),
                      cs := [THEN, |s.dict| + |x| + 3] + s.cs, marked := s3.marked, resolved := s3.resolved)
    requires Extends(CompileWords(s3, vs), s3, y)
    ensures Extends(CompileWords(s, [WIf] + ws + [WElse] + vs + [WThen]), s,
                    [Tok(QBranch), Val(|x| + 3)] + x + [Tok(Branch), Val(|y| + 1)] + y)
  {
    hide CompileWords, CompileWord;
    Bracket2(s, WIf, ws, WElse, vs, WThen);
    var s4 := CompileWords(s3, vs).s;
    var m := |s.dict| + |x| + 3;
    ThenWord(s4, m, s.cs);
    assert s4.dict[m := Val(|s4.dict| - m)] ==
           s.dict + ([Tok(QBranch), Val(|x| + 3)] + x + [Tok(Branch), Val(|y| + 1)] + y);
  }

  lemma {:induction false} ThenWord(s: CState, m: int, cs: seq<int>)
    requires s.cs == [THEN, m] + cs && 0 <= m < |s.dict|
    ensures CompileWord(s, WThen) ==
            Ok(s.(dict := s.dict[m := Val(|s.dict| - m)], cs := cs, resolved := s.resolved + [m]))
  {
    assert s.cs[1..][1..] == cs;
  }

  lemma {:induction false} OnePassBack(s: CState, b: Stmt, u: Unit, pos: nat, z: Word)
    requires Proper(b) && MacrosKnown(b, |u.bodies|) && At(s, u, pos)
    requires z == WAgain || z == WUntil
    ensures Extends(CompileWords(s, [WBegin] + Flatten(b) + [z]), s,
                    Emit(if z == WAgain then Again(b) else Until(b), u, pos))
    decreases b, 2
  {
    hide CompileWords, CompileWord, MacrosMatch;
    var s1 := Opened(s, u, pos, WBegin);
    OnePassIsStructured(s1, b, u, pos);
    BeginBack(s, Flatten(b), Emit(b, u, pos), z);
  }

  lemma {:induction false} BeginBack(s: CState, ws: seq<Word>, x: seq<Cell>, z: Word)
    requires var s1 := CompileWord(s, WBegin).s; Extends(CompileWords(s1, ws), s1, x)
    requires z == WAgain || z == WUntil
    ensures Extends(CompileWords(s, [WBegin] + ws + [z]), s,
                    x + [Tok(if z == WAgain then Branch else QBranch), Val(-(|x| + 1))])
  {
    hide CompileWords;
    Bracket(s, WBegin, ws, z);
    var s2 := CompileWords(CompileWord(s, WBegin).s, ws).s;
    var t := Tok(if z == WAgain then Branch else QBranch);
    assert s2.cs == [AGAIN + UNTIL + WHILE, |s.dict|] + s.cs && s2.dict == s.dict + x;
    hide Extends;
    BackWord(s2, z, |s.dict|, s.cs);
    assert s2.self == s.self && s2.start == s.start && s2.macros == s.macros;
    hide CompileWord;
    BackCells(s.dict, x, t, Val(-(|x| + 1)));
    BackExtends(CompileWord(s2, z), s, s2, x, t);
  }

  lemma {:induction false} BackCells(d: seq<Cell>, x: seq<Cell>, t: Cell, v: Cell)
    ensures d + (x + [t, v]) == d + x + [t] + [v]
  {}

  lemma {:induction false} BackExtends(r: Status, s: CState, s2: CState, x: seq<Cell>, t: Cell)
    requires s2.dict == s.dict + x && s2.self == s.self && s2.start == s.start && s2.macros == s.macros
    requires r == Ok(s2.(dict := s2.dict + [t] + [Val(-(|x| + 1))], cs := s.cs))
    ensures Extends(r, s, x + [t, Val(-(|x| + 1))])
  {
    BackCells(s.dict, x, t, Val(-(|x| + 1)));
  }

  lemma {:induction false} BackWord(s: CState, z: Word, top: int, cs: seq<int>)
    requires z == WAgain || z == WUntil
    requires s.cs == [AGAIN + UNTIL + WHILE, top] + cs
    ensures CompileWord(s, z) ==
            Ok(s.(dict := s.dict + [Tok(if z == WAgain then Branch else QBranch)] + [Val(top - (|s.dict| + 1))],
                  cs := cs))
  {
    assert s.cs[1..][1..] == cs;
  }

  lemma {:induction false} OnePassWhile(s: CState, t: Stmt, b: Stmt, u: Unit, pos: nat)
    requires Proper(t) && MacrosKnown(t, |u.bodies|) && At(s, u, pos)
    requires Proper(b) && MacrosKnown(b, |u.bodies|)
    ensures Extends(CompileWords(s, Flatten(While(t, b))), s, Emit(While(t, b), u, pos))
    decreases While(t, b), 0
  {
    hide CompileWords, CompileWord, MacrosMatch;
    var s1 := Opened(s, u, pos, WBegin);
    OnePassIsStructured(s1, t, u, pos);
    var x := Emit(t, u, pos);
    var s3 := WhileWord(s, Flatten(t), x);
    AtMove(s, s3, u, pos, x + [Tok(QBranch), Val(0)]);
    OnePassIsStructured(s3, b, u, pos + |x| + 2);
    BeginWhileRepeat(s, Flatten(t), x, s3, Flatten(b), Emit(b, u, pos + |x| + 2));
  }

  /** The state after `while`: the exit branch is open above the loop's start. */
  lemma {:induction false} WhileWord(s: CState, ws: seq<Word>, x: seq<Cell>) returns (s3: CState)
    requires var s1 := CompileWord(s, WBegin).s; Extends(CompileWords(s1, ws), s1, x)
    ensures var s2 := CompileWords(CompileWord(s, WBegin).s, ws).s; CompileWord(s2, WWhile) == Ok(s3)
    ensures s3 == s.(dict := s.dict + (x + [Tok(QBranch), Val(0)]),
                     cs := [REPEAT, |s.dict| + |x| + 1, |s.dict|] + s.cs, marked := s3.marked, resolved := s3.resolved)
  {
    hide CompileWords;
    var s2 := CompileWords(CompileWord(s, WBegin).s, ws).s;
    s3 := CompileWord(s2, WWhile).s;
    assert s3.dict == s.dict + (x + [Tok(QBranch), Val(0)]);
  }

  lemma {:induction false} BeginWhileRepeat(s: CState, ws: seq<Word>, x: seq<Cell>, s3: CState, vs: seq<Word>,
                                            y: seq<Cell>)
    requires CompileWord(s, WBegin).Ok?
    requires var s1 := CompileWord(s, WBegin).s; Extends(CompileWords(s1, ws), s1, x)
    requires var s2 := CompileWords(CompileWord(s, WBegin).s, ws).s; CompileWord(s2, WWhile) == Ok(s3)
    requires s3 == s.(dict := s.dict + (x + [Tok(QBranch), Val(0)]),
                      cs := [REPEAT, |s.dict| + |x| + 1, |s.dict|] + s.cs, marked := s3.marked, resolved := s3.resolved)
    requires Extends(CompileWords(s3, vs), s3, y)
    ensures Extends(CompileWords(s, [WBegin] + ws + [WWhile] + vs + [WRepeat]), s,
                    x + [Tok(QBranch), Val(|y| + 3)] + y + [Tok(Branch), Val(-(|x| + |y| + 3))])
  {
    hide CompileWords, CompileWord;
    Bracket2(s, WBegin, ws, WWhile, vs, WRepeat);
    var s4 := CompileWords(s3, vs).s;
    var m := |s.dict| + |x| + 1;
    RepeatWord(s4, m, |s.dict|, s.cs);
    var d5 := s4.dict + [Tok(Branch)] + [Val(-(|x| + |y| + 3))];
    assert d5[m := Val(|d5| - m)] ==
           s.dict + (x + [Tok(QBranch), Val(|y| + 3)] + y + [Tok(Branch), Val(-(|x| + |y| + 3))]);
  }

  lemma {:induction false} RepeatWord(s: CState, m: int, top: int, cs: seq<int>)
    requires s.cs == [REPEAT, m, top] + cs && 0 <= m < |s.dict|
    ensures var d := s.dict + [Tok(Branch)] + [Val(top - (|s.dict| + 1))];
            CompileWord(s, WRepeat) ==
            Ok(s.(dict := d[m := Val(|d| - m)], cs := cs, resolved := s.resolved + [m]))
  {
    assert [top, m] + s.cs[1..][2..] == [top, m] + cs;
  }

  lemma {:induction false} OnePassDo(s: CState, q: bool, b: Stmt, p: bool, u: Unit, pos: nat)
    requires Proper(b) && MacrosKnown(b, |u.bodies|) && At(s, u, pos)
    ensures Extends(CompileWords(s, Flatten(Do(q, b, p))), s, Emit(Do(q, b, p), u, pos))
    decreases Do(q, b, p), 0
  {
    hide *;
    var s1 := Opened(s, u, pos, if q then WQDo else WDo);
    OnePassIsStructured(s1, b, u, pos + 2);
    DoLoop(s, q, Flatten(b), Emit(b, u, pos + 2), p);
    DoShape(q, b, p, u, pos);
  }

  lemma {:induction false} DoShape(q: bool, b: Stmt, p: bool, u: Unit, pos: nat)
    ensures Flatten(Do(q, b, p)) ==
            [if q then WQDo else WDo] + Flatten(b) + [if p then WPlusLoop else WLoop]
    ensures var x := Emit(b, u, pos + 2);
            Emit(Do(q, b, p), u, pos) == [Tok(if q then QDoT else DoT), Val(|x| + 3)] + x +
                                         [Tok(if p then PlusLoopT else LoopT), Val(-(|x| + 1))]
  {}

  lemma {:induction false} DoLoop(s: CState, q: bool, ws: seq<Word>, x: seq<Cell>, p: bool)
    requires var s1 := CompileWord(s, if q then WQDo else WDo).s; Extends(CompileWords(s1, ws), s1, x)
    ensures Extends(CompileWords(s, [if q then WQDo else WDo] + ws + [if p then WPlusLoop else WLoop]), s,
                    [Tok(if q then QDoT else DoT), Val(|x| + 3)] + x +
                    [Tok(if p then PlusLoopT else LoopT), Val(-(|x| + 1))])
  {
    hide CompileWords;
    var w0, w1 := if q then WQDo else WDo, if p then WPlusLoop else WLoop;
    var t0, t1 := Tok(if q then QDoT else DoT), Tok(if p then PlusLoopT else LoopT);
    Bracket(s, w0, ws, w1);
    DoWord(s, q);
    hide CompileWord;
    var s2 := CompileWords(CompileWord(s, w0).s, ws).s;
    var m := |s.dict| + 1;
    LoopWord(s2, |s.dict| + 2, m, s.cs, p);
    var d3 := s2.dict + [t1] + [Val(-(|x| + 1))];
    assert d3[m := Val(|d3| - m)] == s.dict + ([t0, Val(|x| + 3)] + x + [t1, Val(-(|x| + 1))]);
  }

  lemma {:induction false} DoWord(s: CState, q: bool)
    ensures var r := CompileWord(s, if q then WQDo else WDo);
            && r.Ok?
            && r.s == s.(dict := s.dict + [Tok(if q then QDoT else DoT), Val(0)],
                         cs := [LOOP + PLUSLOOP, |s.dict| + 2, |s.dict| + 1] + s.cs, marked := r.s.marked)
  {}

  lemma {:induction false} LoopWord(s: CState, top: int, m: int, cs: seq<int>, p: bool)
    requires s.cs == [LOOP + PLUSLOOP, top, m] + cs && 0 <= m < |s.dict|
    ensures var d := s.dict + [Tok(if p then PlusLoopT else LoopT)] + [Val(top - (|s.dict| + 1))];
            CompileWord(s, if p then WPlusLoop else WLoop) ==
            Ok(s.(dict := d[m := Val(|d| - m)], cs := cs, resolved := s.resolved + [m]))
  {
    assert s.cs[1..][1..][1..] == cs;
  }

  /** Forward marks of the `endof`s seen so far, waiting for `endcase`. */
  ghost predicate MarksIn(marks: seq<int>, n: nat) {
    (forall i :: 0 <= i < |marks| ==> 0 < marks[i] < n) &&
    (forall i, j :: 0 <= i < j < |marks| ==> marks[i] != marks[j])
  }

  /** Patch each mark with its distance to the end of the dictionary. */
  ghost function Patched(dict: seq<Cell>, marks: seq<int>): seq<Cell>
    requires MarksIn(marks, |dict|)
  {
    seq(|dict|, i requires 0 <= i < |dict| => if i in marks then Val(|dict| - i) else dict[i])
  }

  lemma {:induction false} ChainPatches(s: CState, marks: seq<int>, rest: seq<int>)
    requires s.cs == marks + [0] + rest && MarksIn(marks, |s.dict|)
    ensures var r := ResolveChain(s);
            r.Ok? && r.s == s.(dict := Patched(s.dict, marks), cs := rest, resolved := s.resolved + marks)
    decreases |marks|
  {
    if marks == [] {
      assert s.cs[1..] == rest;
      assert Patched(s.dict, marks) == s.dict;
      assert s.resolved + marks == s.resolved;
    } else {
      assert s.cs[1..] == marks[1..] + [0] + rest;
      var s1 := ForwardResolve(s).s;
      ChainPatches(s1, marks[1..], rest);
      assert Patched(s1.dict, marks[1..]) == Patched(s.dict, marks) by {
        forall i | 0 <= i < |s.dict|
          ensures (i in marks) == (i == marks[0] || i in marks[1..])
        {
          assert marks == [marks[0]] + marks[1..];
        }
      }
      assert s1.resolved + marks[1..] == s.resolved + marks;
    }
  }

  /** `r` is `s` with the cells of the remaining arms, every pending mark patched to the end. */
  ghost predicate ClosesCase(r: Status, s: CState, cells: seq<Cell>, marks: seq<int>, rest: seq<int>) {
    && MarksIn(marks, |s.dict + cells|)
    && r.Ok?
    && r.s == s.(dict := Patched(s.dict + cells, marks), cs := rest,
                 marked := r.s.marked, resolved := r.s.resolved)
  }

  /** Compiling the rest of a `case`: the pending `endof` marks are patched at the end. */
  lemma {:induction false} OnePassArms(s: CState, arms: Arms, u: Unit, pos: nat, marks: seq<int>, rest: seq<int>)
    requires ProperArms(arms) && MacrosKnownArms(arms, |u.bodies|) && At(s, u, pos)
    requires s.cs == [OF + ENDCASE] + marks + [0] + rest && MarksIn(marks, |s.dict|)
    ensures ClosesCase(CompileWords(s, FlattenArms(arms)), s, EmitArms(arms, u, pos), marks, rest)
    decreases arms, 1
  {
    match arms
    case Default(d) =>
      hide CompileWords, CompileWord, MacrosMatch;
      OnePassIsStructured(s, d, u, pos);
      EndcaseWord(s, Flatten(d), Emit(d, u, pos), marks, rest);
    case Arm(p, b, more) => OnePassArm(s, p, b, more, u, pos, marks, rest);
  }

  lemma {:induction false} EndcaseWord(s: CState, ws: seq<Word>, x: seq<Cell>, marks: seq<int>, rest: seq<int>)
    requires s.cs == [OF + ENDCASE] + marks + [0] + rest && MarksIn(marks, |s.dict|)
    requires Extends(CompileWords(s, ws), s, x)
    ensures ClosesCase(CompileWords(s, ws + [WEndcase]), s, x + [Tok(Drop)], marks, rest)
  {
    hide CompileWords;
    CompileAppend(s, ws, [WEndcase]);
    var s1 := CompileWords(s, ws).s;
    CompileOne(s1, WEndcase);
    var s2 := Thread(s1.(cs := s1.cs[1..]), Drop);
    assert s2.cs == marks + [0] + rest;
    assert s2.dict == s.dict + (x + [Tok(Drop)]);
    ChainPatches(s2, marks, rest);
  }

  lemma {:induction false} OnePassArm(s: CState, p: Stmt, b: Stmt, more: Arms, u: Unit, pos: nat, marks: seq<int>,
                                      rest: seq<int>)
    requires ProperArms(Arm(p, b, more)) && MacrosKnownArms(Arm(p, b, more), |u.bodies|) && At(s, u, pos)
    requires s.cs == [OF + ENDCASE] + marks + [0] + rest && MarksIn(marks, |s.dict|)
    ensures ClosesCase(CompileWords(s, FlattenArms(Arm(p, b, more))), s, EmitArms(Arm(p, b, more), u, pos), marks, rest)
    decreases Arm(p, b, more), 0
  {
    hide *;
    ArmIs(p, b, more, u);
    ArmEmits(p, b, more, u, pos);
    var x := Emit(p, u, pos);
    OnePassIsStructured(s, p, u, pos);
    var s2 := OfWord(s, Flatten(p), x, marks + [0] + rest);
    AtMove(s, s2, u, pos, x + [Tok(Over), Tok(Equals), Tok(QBranch), Val(0), Tok(Drop)]);
    OnePassIsStructured(s2, b, u, pos + |x| + 5);
    var y := Emit(b, u, pos + |x| + 5);
    var s4 := EndofWord(s, x, marks + [0] + rest, s2, Flatten(b), y);
    AtMove(s, s4, u, pos, ArmCells(x, y, 0));
    var marks' := [|s.dict| + |x| + |y| + 6] + marks;
    assert s4.cs == [OF + ENDCASE] + marks' + [0] + rest;
    MoreMarks(marks, |s.dict|, |s.dict| + |x| + |y| + 6, |s4.dict|);
    OnePassArms(s4, more, u, pos + |x| + |y| + 7, marks', rest);
    var z := EmitArms(more, u, pos + |x| + |y| + 7);
    var r := CompileWords(s4, FlattenArms(more));
    Bracket4(s, Flatten(p), WOf, Flatten(b), WEndof, FlattenArms(more));
    ArmClosed(r, s, s4, x, y, z, marks, rest);
  }

  lemma {:induction false} ArmIs(p: Stmt, b: Stmt, more: Arms, u: Unit)
    requires ProperArms(Arm(p, b, more)) && MacrosKnownArms(Arm(p, b, more), |u.bodies|)
    ensures Proper(p) && Proper(b) && ProperArms(more)
    ensures MacrosKnown(p, |u.bodies|) && MacrosKnown(b, |u.bodies|) && MacrosKnownArms(more, |u.bodies|)
    ensures FlattenArms(Arm(p, b, more)) == Flatten(p) + [WOf] + Flatten(b) + [WEndof] + FlattenArms(more)
  {
    hide Emit, EmitArms;
  }

  lemma {:induction false} ArmEmits(p: Stmt, b: Stmt, more: Arms, u: Unit, pos: nat)
    ensures var x := Emit(p, u, pos);
            var y := Emit(b, u, pos + |x| + 5);
            var z := EmitArms(more, u, pos + |x| + |y| + 7);
            && |ArmCells(x, y, 0)| == |x| + |y| + 7
            && EmitArms(Arm(p, b, more), u, pos) == ArmCells(x, y, |z| + 1) + z
  {}

  lemma {:induction false} ArmClosed(r: Status, s: CState, s4: CState, x: seq<Cell>, y: seq<Cell>, z: seq<Cell>,
                                     marks: seq<int>, rest: seq<int>)
    requires MarksIn(marks, |s.dict|)
    requires s4.dict == s.dict + ArmCells(x, y, 0)
    requires s4 == s.(dict := s4.dict, cs := s4.cs, marked := s4.marked, resolved := s4.resolved)
    requires ClosesCase(r, s4, z, [|s.dict| + |x| + |y| + 6] + marks, rest)
    ensures ClosesCase(r, s, ArmCells(x, y, |z| + 1) + z, marks, rest)
  {
    PatchedArm(s.dict, x, y, z, marks);
  }

  lemma {:induction false} MoreMarks(marks: seq<int>, n: nat, m: nat, n': nat)
    requires MarksIn(marks, n) && n <= m < n' && 0 < m
    ensures MarksIn([m] + marks, n')
  {}

  /** The cells of one arm, given the offset of its closing branch. */
  ghost function ArmCells(x: seq<Cell>, y: seq<Cell>, off: int): seq<Cell> {
    x + [Tok(Over), Tok(Equals), Tok(QBranch), Val(|y| + 4), Tok(Drop)] + y + [Tok(Branch), Val(off)]
  }

  lemma {:induction false} OfWord(s: CState, ws: seq<Word>, x: seq<Cell>, below: seq<int>) returns (s2: CState)
    requires s.cs == [OF + ENDCASE] + below && Extends(CompileWords(s, ws), s, x)
    ensures CompileWords(s, ws).Ok? && CompileWord(CompileWords(s, ws).s, WOf) == Ok(s2)
    ensures s2 == s.(dict := s.dict + (x + [Tok(Over), Tok(Equals), Tok(QBranch), Val(0), Tok(Drop)]),
                     cs := [ENDOF, |s.dict| + |x| + 3] + below, marked := s2.marked, resolved := s2.resolved)
  {
    hide CompileWords;
    var s1 := CompileWords(s, ws).s;
    assert s1.cs[1..] == below;
    s2 := CompileWord(s1, WOf).s;
    assert s2.dict == s.dict + (x + [Tok(Over), Tok(Equals), Tok(QBranch), Val(0), Tok(Drop)]);
  }

  lemma {:induction false} EndofWord(s: CState, x: seq<Cell>, below: seq<int>, s2: CState, vs: seq<Word>,
                                     y: seq<Cell>) returns (s4: CState)
    requires s2 == s.(dict := s.dict + (x + [Tok(Over), Tok(Equals), Tok(QBranch), Val(0), Tok(Drop)]),
                      cs := [ENDOF, |s.dict| + |x| + 3] + below, marked := s2.marked, resolved := s2.resolved)
    requires Extends(CompileWords(s2, vs), s2, y)
    ensures CompileWords(s2, vs).Ok? && CompileWord(CompileWords(s2, vs).s, WEndof) == Ok(s4)
    ensures s4 == s.(dict := s.dict + ArmCells(x, y, 0),
                     cs := [OF + ENDCASE, |s.dict| + |x| + |y| + 6] + below, marked := s4.marked,
                     resolved := s4.resolved)
  {
    hide CompileWords;
    var s3 := CompileWords(s2, vs).s;
    assert s3.cs[2..] == below;
    s4 := CompileWord(s3, WEndof).s;
    assert s4.dict == s.dict + ArmCells(x, y, 0);
  }

  lemma {:induction false} PatchedArm(dict: seq<Cell>, x: seq<Cell>, y: seq<Cell>, z: seq<Cell>, marks: seq<int>)
    requires MarksIn(marks, |dict|)
    requires MarksIn([|dict| + |x| + |y| + 6] + marks, |dict + ArmCells(x, y, 0) + z|)
    ensures Patched(dict + ArmCells(x, y, 0) + z, [|dict| + |x| + |y| + 6] + marks)
         == Patched(dict + (ArmCells(x, y, |z| + 1) + z), marks)
  {
    var m := |dict| + |x| + |y| + 6;
    var open, closed := dict + ArmCells(x, y, 0) + z, dict + (ArmCells(x, y, |z| + 1) + z);
    forall i | 0 <= i < |open|
      ensures Patched(open, [m] + marks)[i] == Patched(closed, marks)[i]
    {
      if i == m {
        assert closed[i] == Val(|z| + 1);
      } else {
        assert open[i] == closed[i];
      }
    }
  }

  lemma {:induction false} Bracket4(s: CState, p: seq<Word>, a: Word, b: seq<Word>, z: Word, more: seq<Word>)
    ensures CompileWords(s, p + [a] + b + [z] + more) ==
            (var r1 := CompileWords(s, p);
             if !r1.Ok? then r1 else
             var r2 := CompileWord(r1.s, a);
             if !r2.Ok? then r2 else
             var r3 := CompileWords(r2.s, b);
             if !r3.Ok? then r3 else
             var r4 := CompileWord(r3.s, z);
             if !r4.Ok? then r4 else CompileWords(r4.s, more))
  {
    assert p + [a] + b + [z] + more == p + ([a] + b + [z]) + more;
    CompileAppend(s, p + ([a] + b + [z]), more);
    CompileAppend(s, p, [a] + b + [z]);
    var r := CompileWords(s, p);
    if r.Ok? { Bracket(r.s, a, b, z); }
  }
}
