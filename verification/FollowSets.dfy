/** The follow-set cells make the compiler an exact acceptor of well-nested source.

    The proof runs a shift-reduce parser beside the compiler: a `Ctx` lists the structures
    still open, and fixes what the compiler's parameter stack must look like. */
module FollowSets {
  import opened ControlSyntax
  import opened ControlCompiler
  import opened OnePass

  /** Arms of a `case` closed so far, oldest first. */
  datatype Closed = NoArms | Snoc(init: Closed, pre: Stmt, arm: Stmt)

  /** The open structures, innermost last. `before` is what precedes the structure in the
      enclosing one; `m` and `marks` are the forward marks waiting to be resolved, `top` the
      address a backward branch will return to. */
  datatype Ctx =
    | Outside
    | InIf(up: Ctx, before: Stmt, m: int)
    | InElse(up: Ctx, before: Stmt, thn: Stmt, m: int)
    | InBegin(up: Ctx, before: Stmt, top: int)
    | InWhile(up: Ctx, before: Stmt, cond: Stmt, top: int, m: int)
    | InCase(up: Ctx, before: Stmt, closed: Closed, marks: seq<int>)
    | InOf(up: Ctx, before: Stmt, closed: Closed, marks: seq<int>, pre: Stmt, m: int)
    | InDo(up: Ctx, before: Stmt, query: bool, m: int, top: int)

  /** The words that opened a context. */
  function Prefix(k: Ctx): seq<Word> {
    match k
    case Outside => []
    case InIf(up, b, _) => Prefix(up) + Flatten(b) + [WIf]
    case InElse(up, b, t, _) => Prefix(up) + Flatten(b) + [WIf] + Flatten(t) + [WElse]
    case InBegin(up, b, _) => Prefix(up) + Flatten(b) + [WBegin]
    case InWhile(up, b, c, _, _) => Prefix(up) + Flatten(b) + [WBegin] + Flatten(c) + [WWhile]
    case InCase(up, b, done, _) => Prefix(up) + Flatten(b) + [WCase] + ClosedWords(done)
    case InOf(up, b, done, _, p, _) =>
      Prefix(up) + Flatten(b) + [WCase] + ClosedWords(done) + Flatten(p) + [WOf]
    case InDo(up, b, q, _, _) => Prefix(up) + Flatten(b) + [if q then WQDo else WDo]
  }

  function ClosedWords(done: Closed): seq<Word> {
    match done
    case NoArms => []
    case Snoc(d, p, a) => ClosedWords(d) + Flatten(p) + [WOf] + Flatten(a) + [WEndof]
  }

  /** The arms of the finished `case`. */
  function Close(done: Closed, rest: Arms): Arms {
    match done
    case NoArms => rest
    case Snoc(d, p, a) => Close(d, Arm(p, a, rest))
  }

  lemma {:induction false} CloseWords(done: Closed, rest: Arms)
    ensures FlattenArms(Close(done, rest)) == ClosedWords(done) + FlattenArms(rest)
  {
    match done
    case NoArms =>
    case Snoc(d, p, a) =>
      CloseWords(d, Arm(p, a, rest));
  }

  /** The compiler's parameter stack inside a context. */
  function StackOf(k: Ctx, base: seq<int>): seq<int> {
    match k
    case Outside => base
    case InIf(up, _, m) => [ELSE + THEN, m] + StackOf(up, base)
    case InElse(up, _, _, m) => [THEN, m] + StackOf(up, base)
    case InBegin(up, _, top) => [AGAIN + UNTIL + WHILE, top] + StackOf(up, base)
    case InWhile(up, _, _, top, m) => [REPEAT, m, top] + StackOf(up, base)
    case InCase(up, _, _, marks) => [OF + ENDCASE] + marks + [0] + StackOf(up, base)
    case InOf(up, _, _, marks, _, m) => [ENDOF, m] + marks + [0] + StackOf(up, base)
    case InDo(up, _, _, m, top) => [LOOP + PLUSLOOP, top, m] + StackOf(up, base)
  }

  /** Forward marks not yet resolved. */
  ghost function Pending(k: Ctx): multiset<int> {
    match k
    case Outside => multiset{}
    case InIf(up, _, m) => Pending(up) + multiset{m}
    case InElse(up, _, _, m) => Pending(up) + multiset{m}
    case InBegin(up, _, _) => Pending(up)
    case InWhile(up, _, _, _, m) => Pending(up) + multiset{m}
    case InCase(up, _, _, marks) => Pending(up) + multiset(marks)
    case InOf(up, _, _, marks, _, m) => Pending(up) + multiset(marks) + multiset{m}
    case InDo(up, _, _, m, _) => Pending(up) + multiset{m}
  }

  predicate Sound(k: Ctx) {
    match k
    case Outside => true
    case InIf(up, b, _) => Sound(up) && Proper(b)
    case InElse(up, b, t, _) => Sound(up) && Proper(b) && Proper(t)
    case InBegin(up, b, _) => Sound(up) && Proper(b)
    case InWhile(up, b, c, _, _) => Sound(up) && Proper(b) && Proper(c)
    case InCase(up, b, done, _) => Sound(up) && Proper(b) && ProperClosed(done)
    case InOf(up, b, done, _, p, _) => Sound(up) && Proper(b) && ProperClosed(done) && Proper(p)
    case InDo(up, b, _, _, _) => Sound(up) && Proper(b)
  }

  predicate ProperClosed(done: Closed) {
    match done
    case NoArms => true
    case Snoc(d, p, a) => ProperClosed(d) && Proper(p) && Proper(a)
  }

  lemma {:induction false} CloseProper(done: Closed, rest: Arms)
    requires ProperClosed(done) && ProperArms(rest)
    ensures ProperArms(Close(done, rest))
  {
    match done
    case NoArms =>
    case Snoc(d, p, a) => CloseProper(d, Arm(p, a, rest));
  }

  datatype Parse = Parse(k: Ctx, cur: Stmt) | Reject

  /** One shift or reduce step; `here` is the length of the dictionary. */
  function Advance(k: Ctx, cur: Stmt, w: Word, here: int): Parse {
    match w
    case WIf => Parse(InIf(k, cur, here + 1), Skip)
    case WElse => if k.InIf? then Parse(InElse(k.up, k.before, cur, here + 1), Skip) else Reject
    case WThen =>
      if k.InIf? then Parse(k.up, Seq(k.before, If(cur)))
      else if k.InElse? then Parse(k.up, Seq(k.before, IfElse(k.thn, cur)))
      else Reject
    case WBegin => Parse(InBegin(k, cur, here), Skip)
    case WUntil => if k.InBegin? then Parse(k.up, Seq(k.before, Until(cur))) else Reject
    case WAgain => if k.InBegin? then Parse(k.up, Seq(k.before, Again(cur))) else Reject
    case WWhile => if k.InBegin? then Parse(InWhile(k.up, k.before, cur, k.top, here + 1), Skip) else Reject
    case WRepeat => if k.InWhile? then Parse(k.up, Seq(k.before, While(k.cond, cur))) else Reject
    case WCase => Parse(InCase(k, cur, NoArms, []), Skip)
    case WOf =>
      if k.InCase? then Parse(InOf(k.up, k.before, k.closed, k.marks, cur, here + 3), Skip) else Reject
    case WEndof =>
      if k.InOf? then
        Parse(InCase(k.up, k.before, Snoc(k.closed, k.pre, cur), [here + 1] + k.marks), Skip)
      else Reject
    case WEndcase =>
      if k.InCase? then Parse(k.up, Seq(k.before, Case(Close(k.closed, Default(cur))))) else Reject
    case WDo => Parse(InDo(k, cur, false, here + 1, here + 2), Skip)
    case WQDo => Parse(InDo(k, cur, true, here + 1, here + 2), Skip)
    case WLoop => if k.InDo? then Parse(k.up, Seq(k.before, Do(k.query, cur, false))) else Reject
    case WPlusLoop => if k.InDo? then Parse(k.up, Seq(k.before, Do(k.query, cur, true))) else Reject
    case _ => Parse(k, Seq(cur, Atom(w)))
  }

  predicate Opens(w: Word) { w == WIf || w == WDo || w == WQDo || w == WBegin || w == WCase }

  /** The context an opening word enters. */
  function Entered(k: Ctx, cur: Stmt, w: Word, n: int): Ctx
    requires Opens(w)
  {
    match w
    case WIf => InIf(k, cur, n + 1)
    case WBegin => InBegin(k, cur, n)
    case WCase => InCase(k, cur, NoArms, [])
    case _ => InDo(k, cur, w == WQDo, n + 1, n + 2)
  }

  /** The parser has consumed exactly the words so far. */
  lemma {:induction false} AdvanceWords(k: Ctx, cur: Stmt, w: Word, here: int)
    requires Sound(k) && Proper(cur) && Advance(k, cur, w, here).Parse?
    ensures var p := Advance(k, cur, w, here);
            && Sound(p.k) && Proper(p.cur)
            && Prefix(p.k) + Flatten(p.cur) == Prefix(k) + Flatten(cur) + [w]
  {
    if Closes(w) {
      ReduceWords(k, cur, w, here);
    } else {
      ShiftWords(k, cur, w, here);
    }
  }

  predicate Closes(w: Word) {
    w.WThen? || w.WUntil? || w.WAgain? || w.WRepeat? || w.WEndcase? || w.WLoop? || w.WPlusLoop?
  }

  lemma {:induction false} ShiftWords(k: Ctx, cur: Stmt, w: Word, here: int)
    requires Sound(k) && Proper(cur) && Advance(k, cur, w, here).Parse?
    requires !Closes(w)
    ensures var p := Advance(k, cur, w, here);
            && Sound(p.k) && Proper(p.cur)
            && Prefix(p.k) + Flatten(p.cur) == Prefix(k) + Flatten(cur) + [w]
  {
    var p := Advance(k, cur, w, here);
    var x, z := Prefix(k), Flatten(cur);
    if w == WEndof {
      hide Prefix, Flatten, ClosedWords;
      ShiftEndof(k, cur);
    } else if p.cur == Skip {
      ShiftOpen(k, cur, w, here);
    } else {
      hide Prefix;
      assert x + (z + [w]) == x + z + [w];
    }
  }

  /** Words after which a new, still empty, statement begins. */
  lemma {:induction false} ShiftOpen(k: Ctx, cur: Stmt, w: Word, here: int)
    requires Sound(k) && Proper(cur) && Advance(k, cur, w, here).Parse?
    requires !Closes(w) && w != WEndof && Advance(k, cur, w, here).cur == Skip
    ensures var p := Advance(k, cur, w, here);
            && Sound(p.k) && Proper(p.cur)
            && Prefix(p.k) + Flatten(p.cur) == Prefix(k) + Flatten(cur) + [w]
  {
    var p := Advance(k, cur, w, here);
    if Opens(w) {
      assert p.k == Entered(k, cur, w, here);
      PrefixEntered(k, cur, w, here);
    } else {
      PrefixMiddle(k, cur, w, here);
    }
    assert Sound(p.k) && Proper(p.cur) && Flatten(p.cur) == [];
    hide *;
    assert Prefix(p.k) + [] == Prefix(p.k);
  }

  lemma {:induction false} PrefixEntered(k: Ctx, cur: Stmt, w: Word, n: int)
    requires Opens(w)
    ensures Prefix(Entered(k, cur, w, n)) == Prefix(k) + Flatten(cur) + [w]
  {
    match w
    case WCase => PrefixCase(k, cur);
    case WIf => PrefixIf(k, cur, n + 1);
    case WBegin => PrefixBegin(k, cur, n);
    case _ => PrefixDo(k, cur, w == WQDo, n + 1, n + 2);
    hide Prefix;
  }

  lemma {:induction false} PrefixCase(k: Ctx, cur: Stmt)
    ensures Prefix(InCase(k, cur, NoArms, [])) == Prefix(k) + Flatten(cur) + [WCase]
  {
    assert Prefix(k) + Flatten(cur) + [WCase] + [] == Prefix(k) + Flatten(cur) + [WCase];
  }

  lemma {:induction false} PrefixIf(k: Ctx, cur: Stmt, m: int)
    ensures Prefix(InIf(k, cur, m)) == Prefix(k) + Flatten(cur) + [WIf]
  {}

  lemma {:induction false} PrefixBegin(k: Ctx, cur: Stmt, top: int)
    ensures Prefix(InBegin(k, cur, top)) == Prefix(k) + Flatten(cur) + [WBegin]
  {}

  lemma {:induction false} PrefixDo(k: Ctx, cur: Stmt, q: bool, m: int, top: int)
    ensures Prefix(InDo(k, cur, q, m, top)) == Prefix(k) + Flatten(cur) + [if q then WQDo else WDo]
  {}

  lemma {:induction false} PrefixMiddle(k: Ctx, cur: Stmt, w: Word, n: int)
    requires w == WElse || w == WWhile || w == WOf
    requires Advance(k, cur, w, n).Parse?
    ensures Prefix(Advance(k, cur, w, n).k) == Prefix(k) + Flatten(cur) + [w]
  {
    var k' := Advance(k, cur, w, n).k;
    hide Advance;
  }

  lemma {:induction false} ShiftEndof(k: Ctx, cur: Stmt)
    requires k.InOf?
    ensures forall marks ::
              (Prefix(InCase(k.up, k.before, Snoc(k.closed, k.pre, cur), marks)) + Flatten(Skip)
               == Prefix(k) + Flatten(cur) + [WEndof])
  {
    var z := Flatten(cur);
    var P, q, y := Prefix(k.up) + Flatten(k.before) + [WCase], ClosedWords(k.closed), Flatten(k.pre);
    AssocEndof(P, q, y, [WOf], z, [WEndof]);
  }

  lemma {:induction false} AssocEndof(p: seq<Word>, q: seq<Word>, y: seq<Word>, a: seq<Word>, z: seq<Word>,
                                      b: seq<Word>)
    ensures p + (q + y + a + z + b) + [] == p + q + y + a + z + b
  {}

  lemma {:induction false} ReduceWords(k: Ctx, cur: Stmt, w: Word, here: int)
    requires Sound(k) && Proper(cur) && Advance(k, cur, w, here).Parse?
    requires Closes(w)
    ensures var p := Advance(k, cur, w, here);
            && Sound(p.k) && Proper(p.cur)
            && Prefix(p.k) + Flatten(p.cur) == Prefix(k) + Flatten(cur) + [w]
  {
    hide Prefix, Flatten;
    match k
    case InIf(_, _, _) => ReduceShort(k, cur, w, here);
    case InBegin(_, _, _) => ReduceShort(k, cur, w, here);
    case InDo(_, _, _, _, _) => ReduceShort(k, cur, w, here);
    case InElse(_, _, _, _) => ReduceElse(k, cur, here);
    case InWhile(_, _, _, _, _) => ReduceWhile(k, cur, here);
    case InCase(_, _, _, _) => ReduceCase(k, cur);
  }

  lemma {:induction false} ReduceShort(k: Ctx, cur: Stmt, w: Word, here: int)
    requires k.InIf? || k.InBegin? || k.InDo?
    requires Sound(k) && Proper(cur) && Advance(k, cur, w, here).Parse? && Closes(w)
    ensures var p := Advance(k, cur, w, here);
            && p.k == k.up && Proper(p.cur)
            && Prefix(k.up) + Flatten(p.cur) == Prefix(k) + Flatten(cur) + [w]
  {
    var open := if k.InIf? then WIf else if k.InBegin? then WBegin else if k.query then WQDo else WDo;
    var p := Advance(k, cur, w, here);
    assert p.k == k.up && Proper(p.cur);
    assert Flatten(p.cur) == Flatten(k.before) + ([open] + Flatten(cur) + [w]);
    assert Prefix(k) == Prefix(k.up) + Flatten(k.before) + [open];
    hide *;
    Assoc3(Prefix(k.up), Flatten(k.before), [open], Flatten(cur), [w]);
  }

  lemma {:induction false} ReduceElse(k: Ctx, cur: Stmt, here: int)
    requires k.InElse? && Sound(k) && Proper(cur)
    ensures var st := Seq(k.before, IfElse(k.thn, cur));
            Proper(st) && Prefix(k.up) + Flatten(st) == Prefix(k) + Flatten(cur) + [WThen]
  {
    Assoc5(Prefix(k.up), Flatten(k.before), [WIf], Flatten(k.thn), [WElse], Flatten(cur), [WThen]);
  }

  lemma {:induction false} ReduceWhile(k: Ctx, cur: Stmt, here: int)
    requires k.InWhile? && Sound(k) && Proper(cur)
    ensures var st := Seq(k.before, While(k.cond, cur));
            Proper(st) && Prefix(k.up) + Flatten(st) == Prefix(k) + Flatten(cur) + [WRepeat]
  {
    Assoc5(Prefix(k.up), Flatten(k.before), [WBegin], Flatten(k.cond), [WWhile], Flatten(cur), [WRepeat]);
  }

  lemma {:induction false} ReduceCase(k: Ctx, cur: Stmt)
    requires k.InCase? && ProperClosed(k.closed) && Proper(cur)
    ensures var c := Case(Close(k.closed, Default(cur)));
            Proper(c) && Prefix(k.up) + Flatten(Seq(k.before, c)) == Prefix(k) + Flatten(cur) + [WEndcase]
  {
    CloseWords(k.closed, Default(cur));
    CloseProper(k.closed, Default(cur));
    AssocCase(Prefix(k.up), Flatten(k.before), [WCase], ClosedWords(k.closed), Flatten(cur), [WEndcase]);
  }

  lemma {:induction false} Assoc3(p: seq<Word>, y: seq<Word>, a: seq<Word>, z: seq<Word>, w: seq<Word>)
    ensures p + (y + (a + z + w)) == p + y + a + z + w
  {}

  lemma {:induction false} Assoc5(p: seq<Word>, y: seq<Word>, a: seq<Word>, t: seq<Word>, b: seq<Word>, z: seq<Word>,
                                  w: seq<Word>)
    ensures p + (y + (a + t + b + z + w)) == p + y + a + t + b + z + w
  {}

  lemma {:induction false} AssocCase(p: seq<Word>, y: seq<Word>, a: seq<Word>, d: seq<Word>, z: seq<Word>, w: seq<Word>)
    ensures p + (y + (a + (d + (z + w)))) == p + y + a + d + z + w
  {}

  /** No follow-set bit is set in the cell. */
  predicate FlagFree(x: int) { x % 2048 == 0 }

  lemma {:induction false} FlagFreeHasNone(x: int)
    requires FlagFree(x)
    ensures !HasFlag(x, ELSE) && !HasFlag(x, THEN) && !HasFlag(x, AGAIN) && !HasFlag(x, UNTIL)
    ensures !HasFlag(x, WHILE) && !HasFlag(x, REPEAT) && !HasFlag(x, LOOP) && !HasFlag(x, PLUSLOOP)
    ensures !HasFlag(x, OF) && !HasFlag(x, ENDOF) && !HasFlag(x, ENDCASE)
  {
    var q := x / 2048;
    assert x == 2048 * q;
  }

  ghost predicate Within(ms: multiset<int>, n: nat) {
    forall m :: m in ms ==> 0 < m < n
  }

  /** The compiler is where the parser says it is; every mark made is either resolved once
      or still pending, and no mark was made twice. */
  ghost predicate Agree(s: CState, k: Ctx, base: seq<int>) {
    && s.cs == StackOf(k, base)
    && Within(Pending(k), |s.dict|)
    && multiset(s.marked) == multiset(s.resolved) + Pending(k)
    && Increasing(s.marked, |s.dict|)
  }

  ghost predicate Increasing(ms: seq<int>, n: nat) {
    (forall i :: 0 <= i < |ms| ==> ms[i] < n) &&
    (forall i, j :: 0 <= i < j < |ms| ==> ms[i] < ms[j])
  }

  /** Macro words name an entry whose cells lie in the dictionary. */
  predicate Known(w: Word, s: CState) {
    w.WMacro? ==> w.d < |s.macros| && s.macros[w.d].body + s.macros[w.d].size <= |s.dict|
  }

  predicate IsFlag(f: int) {
    f == ELSE || f == THEN || f == AGAIN || f == UNTIL || f == WHILE || f == REPEAT ||
    f == LOOP || f == PLUSLOOP || f == OF || f == ENDOF || f == ENDCASE
  }

  /** Only the flags of the innermost open structure are on top. */
  lemma {:induction false} TopFlag(k: Ctx, base: seq<int>, flag: int)
    requires base != [] && FlagFree(base[0])
    requires IsFlag(flag)
    ensures StackOf(k, base) != []
    ensures HasFlag(StackOf(k, base)[0], flag) <==>
            (match k
             case Outside => false
             case InIf(_, _, _) => flag == ELSE || flag == THEN
             case InElse(_, _, _, _) => flag == THEN
             case InBegin(_, _, _) => flag == AGAIN || flag == UNTIL || flag == WHILE
             case InWhile(_, _, _, _, _) => flag == REPEAT
             case InCase(_, _, _, _) => flag == OF || flag == ENDCASE
             case InOf(_, _, _, _, _, _) => flag == ENDOF
             case InDo(_, _, _, _, _) => flag == LOOP || flag == PLUSLOOP)
  {
    FlagFreeHasNone(base[0]);
    FlagBits(flag);
  }

  /** Which flags each cell left by a control word holds. */
  lemma {:induction false} FlagBits(flag: int)
    requires IsFlag(flag)
    ensures HasFlag(ELSE + THEN, flag) <==> flag == ELSE || flag == THEN
    ensures HasFlag(THEN, flag) <==> flag == THEN
    ensures HasFlag(AGAIN + UNTIL + WHILE, flag) <==> flag == AGAIN || flag == UNTIL || flag == WHILE
    ensures HasFlag(REPEAT, flag) <==> flag == REPEAT
    ensures HasFlag(OF + ENDCASE, flag) <==> flag == OF || flag == ENDCASE
    ensures HasFlag(ENDOF, flag) <==> flag == ENDOF
    ensures HasFlag(LOOP + PLUSLOOP, flag) <==> flag == LOOP || flag == PLUSLOOP
  {
    if flag == ELSE {} else if flag == THEN {} else if flag == AGAIN {} else if flag == UNTIL {}
    else if flag == WHILE {} else if flag == REPEAT {} else if flag == LOOP {}
    else if flag == PLUSLOOP {} else if flag == OF {} else if flag == ENDOF {} else {}
  }

  /** The state a step leads to, as far as the acceptor is concerned. */
  ghost predicate Stepped(r: Status, s: CState, k': Ctx, base: seq<int>) {
    r.Ok? && Agree(r.s, k', base) && |s.dict| <= |r.s.dict| && r.s.macros == s.macros
  }

  /** Making the marks `made` and resolving the marks `patched` keeps the accounts. */
  lemma {:induction false} Remark(s: CState, s': CState, k: Ctx, k': Ctx, made: seq<int>, patched: seq<int>)
    requires multiset(s.marked) == multiset(s.resolved) + Pending(k)
    requires Within(Pending(k), |s.dict|) && Increasing(s.marked, |s.dict|)
    requires s'.marked == s.marked + made && s'.resolved == s.resolved + patched
    requires Pending(k) + multiset(made) == Pending(k') + multiset(patched)
    requires |made| <= 1 && |s.dict| <= |s'.dict|
    requires made != [] ==> 0 < made[0] < |s'.dict| && |s.dict| <= made[0]
    ensures multiset(s'.marked) == multiset(s'.resolved) + Pending(k')
    ensures Within(Pending(k'), |s'.dict|) && Increasing(s'.marked, |s'.dict|)
  {
    hide *;
    Balance(s.marked, s.resolved, Pending(k), Pending(k'), made, patched);
    StillWithin(Pending(k), |s.dict|, made, patched, Pending(k'), |s'.dict|);
    StillIncreasing(s.marked, |s.dict|, made, |s'.dict|);
  }

  lemma {:induction false} StillIncreasing(marked: seq<int>, n: nat, made: seq<int>, n': nat)
    requires Increasing(marked, n) && |made| <= 1 && n <= n'
    requires made != [] ==> 0 < made[0] < n' && n <= made[0]
    ensures Increasing(marked + made, n')
  {
  }

  lemma {:induction false} Balance(a: seq<int>, b: seq<int>, p: multiset<int>, p': multiset<int>, made: seq<int>,
                                   patched: seq<int>)
    requires multiset(a) == multiset(b) + p
    requires p + multiset(made) == p' + multiset(patched)
    ensures multiset(a + made) == multiset(b + patched) + p'
  {
    assert multiset(a + made) == multiset(a) + multiset(made);
    assert multiset(b + patched) == multiset(b) + multiset(patched);
    assert multiset(b) + p + multiset(made) == multiset(b) + (p + multiset(made));
    assert multiset(b) + (p' + multiset(patched)) == multiset(b) + multiset(patched) + p';
  }

  lemma {:induction false} StillWithin(p: multiset<int>, n: nat, made: seq<int>, patched: seq<int>, p': multiset<int>,
                                       n': nat)
    requires Within(p, n) && n <= n' && |made| <= 1
    requires made != [] ==> 0 < made[0] < n'
    requires p + multiset(made) == p' + multiset(patched)
    ensures Within(p', n')
  {
    forall m | m in p'
      ensures 0 < m < n'
    {
      assert m in p + multiset(made);
      if m !in p { assert m in made; }
    }
  }

  /** What a step did: the new parameter stack, the cells added, the marks made and those
      resolved. */
  ghost predicate Did(r: Status, s: CState, cs': seq<int>, grown: nat, made: seq<int>, patched: seq<int>) {
    && r.Ok? && r.s.cs == cs' && |r.s.dict| == |s.dict| + grown && r.s.macros == s.macros
    && r.s.marked == s.marked + made && r.s.resolved == s.resolved + patched
  }

  lemma {:induction false} Lands(r: Status, s: CState, k: Ctx, k': Ctx, base: seq<int>, grown: nat, made: seq<int>,
                                 patched: seq<int>)
    requires Agree(s, k, base) && Did(r, s, StackOf(k', base), grown, made, patched)
    requires Pending(k) + multiset(made) == Pending(k') + multiset(patched)
    requires |made| <= 1 && (made != [] ==> 0 < made[0] < |s.dict| + grown && |s.dict| <= made[0])
    ensures Stepped(r, s, k', base)
  {
    hide StackOf, Pending;
    Remark(s, r.s, k, k', made, patched);
  }

  // ----- opening words and atoms are always accepted -----

  /** What an opening word leaves on the stack when the dictionary ends at `n`. */
  function OpenCells(w: Word, n: int): seq<int>
    requires Opens(w)
  {
    match w
    case WIf => [ELSE + THEN, n + 1]
    case WBegin => [AGAIN + UNTIL + WHILE, n]
    case WCase => [OF + ENDCASE, 0]
    case _ => [LOOP + PLUSLOOP, n + 2, n + 1]
  }

  function OpenMarks(w: Word, n: int): seq<int>
    requires Opens(w)
  {
    if w == WBegin || w == WCase then [] else [n + 1]
  }

  function OpenGrowth(w: Word): nat
    requires Opens(w)
  {
    if w == WBegin || w == WCase then 0 else 2
  }

  lemma {:induction false} OpenStep(s: CState, w: Word)
    requires Opens(w)
    ensures Did(CompileWord(s, w), s, OpenCells(w, |s.dict|) + s.cs, OpenGrowth(w), OpenMarks(w, |s.dict|), [])
  {
    hide CompileWord;
    if w == WBegin || w == WCase { PlainOpenStep(s, w); } else { MarkingOpenStep(s, w); }
  }

  lemma {:induction false} PlainOpenStep(s: CState, w: Word)
    requires w == WBegin || w == WCase
    ensures Did(CompileWord(s, w), s, OpenCells(w, |s.dict|) + s.cs, 0, [], [])
  {
    assert s.marked == s.marked + [] && s.resolved == s.resolved + [];
  }

  lemma {:induction false} MarkingOpenStep(s: CState, w: Word)
    requires w == WIf || w == WDo || w == WQDo
    ensures Did(CompileWord(s, w), s, OpenCells(w, |s.dict|) + s.cs, 2, [|s.dict| + 1], [])
  {
    assert s.resolved == s.resolved + [];
  }

  lemma {:induction false} OpensAgree(s: CState, k: Ctx, cur: Stmt, base: seq<int>, w: Word)
    requires Agree(s, k, base) && Opens(w)
    ensures var p := Advance(k, cur, w, |s.dict|);
            p.Parse? && Stepped(CompileWord(s, w), s, p.k, base)
  {
    var n := |s.dict|;
    assert s.cs == StackOf(k, base);
    assert OpenMarks(w, n) == [] || (OpenMarks(w, n) == [n + 1] && OpenGrowth(w) == 2);
    OpenStep(s, w);
    OpenShape(k, cur, base, w, n);
    hide *;
    assert Pending(k) + multiset(OpenMarks(w, n)) == Pending(Advance(k, cur, w, n).k) + multiset([]);
    Lands(CompileWord(s, w), s, k, Advance(k, cur, w, n).k, base, OpenGrowth(w), OpenMarks(w, n), []);
  }

  lemma {:induction false} OpenShape(k: Ctx, cur: Stmt, base: seq<int>, w: Word, n: nat)
    requires Opens(w)
    ensures var p := Advance(k, cur, w, n);
            && p.Parse?
            && Pending(p.k) == Pending(k) + multiset(OpenMarks(w, n))
            && StackOf(p.k, base) == OpenCells(w, n) + StackOf(k, base)
  {
    assert Advance(k, cur, w, n) == Parse(Entered(k, cur, w, n), Skip);
    EnteredPending(k, cur, w, n);
    EnteredStack(k, cur, base, w, n);
    hide *;
  }

  lemma {:induction false} EnteredPending(k: Ctx, cur: Stmt, w: Word, n: nat)
    requires Opens(w)
    ensures Pending(Entered(k, cur, w, n)) == Pending(k) + multiset(OpenMarks(w, n))
  {
    var k', made := Entered(k, cur, w, n), OpenMarks(w, n);
    assert w == WIf ==> k' == InIf(k, cur, n + 1) && made == [n + 1];
    assert w == WBegin ==> k' == InBegin(k, cur, n) && made == [];
    assert w == WCase ==> k' == InCase(k, cur, NoArms, []) && made == [];
    assert w == WDo || w == WQDo ==> k' == InDo(k, cur, w == WQDo, n + 1, n + 2) && made == [n + 1];
    assert w == WIf || w == WBegin || w == WCase || w == WDo || w == WQDo;
    hide *;
    if w == WIf {
      PendingIf(k, cur, n + 1);
    } else if w == WBegin {
      PendingBegin(k, cur, n);
    } else if w == WCase {
      PendingCase(k, cur);
    } else {
      PendingDo(k, cur, w == WQDo, n + 1, n + 2);
    }
  }

  lemma {:induction false} PendingIf(k: Ctx, cur: Stmt, m: int)
    ensures Pending(InIf(k, cur, m)) == Pending(k) + multiset([m])
  {
    assert multiset([m]) == multiset{m};
  }

  lemma {:induction false} PendingDo(k: Ctx, cur: Stmt, q: bool, m: int, top: int)
    ensures Pending(InDo(k, cur, q, m, top)) == Pending(k) + multiset([m])
  {
    assert multiset([m]) == multiset{m};
  }

  lemma {:induction false} PendingBegin(k: Ctx, cur: Stmt, top: int)
    ensures Pending(InBegin(k, cur, top)) == Pending(k) + multiset([])
  {
    assert Pending(k) + multiset([]) == Pending(k);
  }

  lemma {:induction false} PendingCase(k: Ctx, cur: Stmt)
    ensures Pending(InCase(k, cur, NoArms, [])) == Pending(k) + multiset([])
  {
  }

  lemma {:induction false} EnteredStack(k: Ctx, cur: Stmt, base: seq<int>, w: Word, n: nat)
    requires Opens(w)
    ensures StackOf(Entered(k, cur, w, n), base) == OpenCells(w, n) + StackOf(k, base)
  {
    var k' := Entered(k, cur, w, n);
    StackOpened(k, cur, base, w == WQDo, n);
    assert w == WBegin ==> k' == InBegin(k, cur, n);
    assert w == WCase ==> k' == InCase(k, cur, NoArms, []);
    assert w == WIf ==> k' == InIf(k, cur, n + 1);
    assert w == WDo || w == WQDo ==> k' == InDo(k, cur, w == WQDo, n + 1, n + 2);
    hide StackOf, Entered;
  }

  lemma {:induction false} StackOpened(k: Ctx, cur: Stmt, base: seq<int>, q: bool, n: nat)
    ensures StackOf(InBegin(k, cur, n), base) == OpenCells(WBegin, n) + StackOf(k, base)
    ensures StackOf(InCase(k, cur, NoArms, []), base) == OpenCells(WCase, n) + StackOf(k, base)
    ensures StackOf(InIf(k, cur, n + 1), base) == OpenCells(WIf, n) + StackOf(k, base)
    ensures StackOf(InDo(k, cur, q, n + 1, n + 2), base) == OpenCells(WDo, n) + StackOf(k, base)
  {
    assert [OF + ENDCASE] + [] + [0] == [OF + ENDCASE, 0];
  }

  lemma {:induction false} AtomStep(s: CState, w: Word) returns (grown: nat)
    requires Known(w, s) && IsAtom(w)
    ensures Did(CompileWord(s, w), s, s.cs, grown, [], [])
  {
    var s' := CompileWord(s, w).s;
    assert s'.marked == s.marked + [] && s'.resolved == s.resolved + [];
    assert w == WTailRecurse ==> ([s.start] + s.cs)[1..] == s.cs;
    grown := |s'.dict| - |s.dict|;
  }

  lemma {:induction false} AtomAgrees(s: CState, k: Ctx, cur: Stmt, base: seq<int>, w: Word)
    requires Agree(s, k, base) && Known(w, s) && IsAtom(w)
    ensures Advance(k, cur, w, |s.dict|) == Parse(k, Seq(cur, Atom(w)))
    ensures Stepped(CompileWord(s, w), s, k, base)
  {
    assert s.cs == StackOf(k, base);
    assert Advance(k, cur, w, |s.dict|) == Parse(k, Seq(cur, Atom(w)));
    var grown := AtomStep(s, w);
    hide *;
    Lands(CompileWord(s, w), s, k, k, base, grown, [], []);
  }

  // ----- words that check a follow set -----

  predicate Checks(w: Word) { Closes(w) || w.WElse? || w.WWhile? || w.WOf? || w.WEndof? }

  /** The flag the word looks for. */
  function FlagOf(w: Word): (f: int)
    requires Checks(w)
    ensures IsFlag(f)
  {
    match w
    case WElse => ELSE
    case WThen => THEN
    case WUntil => UNTIL
    case WAgain => AGAIN
    case WWhile => WHILE
    case WRepeat => REPEAT
    case WOf => OF
    case WEndof => ENDOF
    case WEndcase => ENDCASE
    case WLoop => LOOP
    case WPlusLoop => PLUSLOOP
  }

  /** Without its flag on top the word aborts. */
  lemma {:induction false} Refused(s: CState, w: Word)
    requires Checks(w) && s.cs != [] && !HasFlag(s.cs[0], FlagOf(w))
    ensures CompileWord(s, w) == Illegal
  {
    assert Check(s, FlagOf(w)) == Illegal;
  }

  /** The flag is on top exactly when the parser can advance. */
  lemma {:induction false} FlagDecides(k: Ctx, cur: Stmt, base: seq<int>, w: Word, n: nat)
    requires base != [] && FlagFree(base[0]) && Checks(w)
    ensures StackOf(k, base) != []
    ensures HasFlag(StackOf(k, base)[0], FlagOf(w)) <==> Advance(k, cur, w, n).Parse?
  {
    TopFlag(k, base, FlagOf(w));
    hide StackOf, HasFlag;
  }

  /** `(branch) >mark swap >resolve`, shared by `else` and `endof`. */
  lemma {:induction false} BranchOver(s: CState, m: int, rest: seq<int>) returns (r: CState)
    requires s.cs == [m] + rest && 0 < m < |s.dict|
    ensures var s2 := Swap(ForwardMark(Thread(s, Branch))); s2.Ok? && ForwardResolve(s2.s) == Ok(r)
    ensures Did(Ok(r), s, [|s.dict| + 1] + rest, 2, [|s.dict| + 1], [m])
  {
    var s1 := ForwardMark(Thread(s, Branch));
    assert s1.cs == [|s.dict| + 1, m] + rest;
    var s2 := Swap(s1).s;
    assert s1.cs[2..] == rest;
    assert s2.cs == [m, |s.dict| + 1] + rest;
    r := ForwardResolve(s2).s;
    assert r.cs == [|s.dict| + 1] + rest;
  }

  /** The follow-set check leaves the rest of the stack. */
  lemma {:induction false} Checked(s: CState, w: Word, follow: int, rest: seq<int>)
    requires Checks(w) && s.cs == [follow] + rest && HasFlag(follow, FlagOf(w))
    ensures Check(s, FlagOf(w)) == Ok(s.(cs := rest))
  {
    assert s.cs[1..] == rest;
  }

  lemma {:induction false} ElseStep(s: CState, follow: int, m: int, rest: seq<int>)
    requires s.cs == [follow] + ([m] + rest) && HasFlag(follow, ELSE) && 0 < m < |s.dict|
    ensures Did(CompileWord(s, WElse), s, [THEN, |s.dict| + 1] + rest, 2, [|s.dict| + 1], [m])
  {
    Checked(s, WElse, follow, [m] + rest);
    var r := BranchOver(s.(cs := [m] + rest), m, rest);
    assert Push(r, THEN).cs == [THEN, |s.dict| + 1] + rest;
  }

  lemma {:induction false} EndofStep(s: CState, follow: int, m: int, rest: seq<int>)
    requires s.cs == [follow] + ([m] + rest) && HasFlag(follow, ENDOF) && 0 < m < |s.dict|
    ensures Did(CompileWord(s, WEndof), s, [OF + ENDCASE, |s.dict| + 1] + rest, 2, [|s.dict| + 1], [m])
  {
    Checked(s, WEndof, follow, [m] + rest);
    var r := BranchOver(s.(cs := [m] + rest), m, rest);
    assert Push(r, OF + ENDCASE).cs == [OF + ENDCASE, |s.dict| + 1] + rest;
  }

  lemma {:induction false} ThenStep(s: CState, follow: int, m: int, rest: seq<int>)
    requires s.cs == [follow] + ([m] + rest) && HasFlag(follow, THEN) && 0 < m < |s.dict|
    ensures Did(CompileWord(s, WThen), s, rest, 0, [], [m])
  {
    Checked(s, WThen, follow, [m] + rest);
    var r := ForwardResolve(s.(cs := [m] + rest)).s;
    assert ([m] + rest)[1..] == rest;
    assert r.marked == s.marked + [];
  }

  /** `until` and `again` */
  lemma {:induction false} BackStep(s: CState, follow: int, top: int, rest: seq<int>, w: Word)
    requires w == WUntil || w == WAgain
    requires s.cs == [follow] + ([top] + rest) && HasFlag(follow, FlagOf(w))
    ensures Did(CompileWord(s, w), s, rest, 2, [], [])
  {
    Checked(s, w, follow, [top] + rest);
    var r := CompileWord(s, w).s;
    assert ([top] + rest)[1..] == rest;
    assert r.marked == s.marked + [] && r.resolved == s.resolved + [];
  }

  lemma {:induction false} WhileStep(s: CState, follow: int, rest: seq<int>)
    requires s.cs == [follow] + rest && HasFlag(follow, WHILE)
    ensures Did(CompileWord(s, WWhile), s, [REPEAT, |s.dict| + 1] + rest, 2, [|s.dict| + 1], [])
  {
    Checked(s, WWhile, follow, rest);
    var r := CompileWord(s, WWhile).s;
    assert r.resolved == s.resolved + [];
    assert r.cs == [REPEAT, |s.dict| + 1] + rest;
  }

  lemma {:induction false} RepeatStep(s: CState, follow: int, m: int, top: int, rest: seq<int>)
    requires s.cs == [follow] + ([m, top] + rest) && HasFlag(follow, REPEAT) && 0 < m < |s.dict|
    ensures Did(CompileWord(s, WRepeat), s, rest, 2, [], [m])
  {
    Checked(s, WRepeat, follow, [m, top] + rest);
    var s1 := Thread(s.(cs := [m, top] + rest), Branch);
    assert s1.cs[2..] == rest;
    var s2 := BackwardResolve(Swap(s1).s).s;
    assert s2.cs == [m] + rest;
    assert ([m] + rest)[1..] == rest;
    assert ForwardResolve(s2).s.marked == s.marked + [];
  }

  /** `loop` and `+loop` */
  lemma {:induction false} LoopStep(s: CState, follow: int, top: int, m: int, rest: seq<int>, w: Word)
    requires w == WLoop || w == WPlusLoop
    requires s.cs == [follow] + ([top, m] + rest) && HasFlag(follow, FlagOf(w)) && 0 < m < |s.dict|
    ensures Did(CompileWord(s, w), s, rest, 2, [], [m])
  {
    Checked(s, w, follow, [top, m] + rest);
    var s1 := Thread(s.(cs := [top, m] + rest), if w == WLoop then LoopT else PlusLoopT);
    var s2 := BackwardResolve(s1).s;
    assert s2.cs == [m] + rest;
    assert ([m] + rest)[1..] == rest;
    assert ForwardResolve(s2).s.marked == s.marked + [];
  }

  lemma {:induction false} OfStep(s: CState, follow: int, rest: seq<int>)
    requires s.cs == [follow] + rest && HasFlag(follow, OF)
    ensures Did(CompileWord(s, WOf), s, [ENDOF, |s.dict| + 3] + rest, 5, [|s.dict| + 3], [])
  {
    Checked(s, WOf, follow, rest);
    var r := CompileWord(s, WOf).s;
    assert r.resolved == s.resolved + [];
    assert r.cs == [ENDOF, |s.dict| + 3] + rest;
  }

  lemma {:induction false} EndcaseStep(s: CState, follow: int, marks: seq<int>, rest: seq<int>)
    requires s.cs == [follow] + (marks + [0] + rest) && HasFlag(follow, ENDCASE)
    requires forall i :: 0 <= i < |marks| ==> 0 < marks[i] < |s.dict|
    ensures Did(CompileWord(s, WEndcase), s, rest, 1, [], marks)
  {
    Checked(s, WEndcase, follow, marks + [0] + rest);
    var s2 := Thread(s.(cs := marks + [0] + rest), Drop);
    ChainShape(s2, marks, rest);
    assert s.marked == s.marked + [];
  }

  lemma {:induction false} ChainShape(s: CState, marks: seq<int>, rest: seq<int>)
    requires s.cs == marks + [0] + rest
    requires forall i :: 0 <= i < |marks| ==> 0 < marks[i] < |s.dict|
    ensures var r := ResolveChain(s);
            && r.Ok? && r.s.cs == rest && |r.s.dict| == |s.dict| && r.s.macros == s.macros
            && r.s.resolved == s.resolved + marks && r.s.marked == s.marked
    decreases |marks|
  {
    if marks == [] {
      assert s.cs[1..] == rest;
    } else {
      assert s.cs[1..] == marks[1..] + [0] + rest;
      var s1 := ForwardResolve(s).s;
      ChainShape(s1, marks[1..], rest);
      assert s1.resolved + marks[1..] == s.resolved + marks;
    }
  }

  // ----- each checking word, in the structure that expects it -----

  lemma {:induction false} IfElseAccepted(s: CState, k: Ctx, cur: Stmt, base: seq<int>, w: Word)
    requires Agree(s, k, base) && (w == WElse || w == WThen) && Advance(k, cur, w, |s.dict|).Parse?
    requires s.cs != [] && HasFlag(s.cs[0], FlagOf(w))
    ensures Stepped(CompileWord(s, w), s, Advance(k, cur, w, |s.dict|).k, base)
  {
    var n, rest := |s.dict|, StackOf(k.up, base);
    var k' := Advance(k, cur, w, n).k;
    assert k.m in Pending(k) && 0 < k.m < n;
    assert s.cs == [s.cs[0]] + ([k.m] + rest);
    IfElseShape(k, cur, base, w, n);
    hide *;
    if w == WElse {
      ElseStep(s, s.cs[0], k.m, rest);
      Lands(CompileWord(s, w), s, k, k', base, 2, [n + 1], [k.m]);
    } else {
      ThenStep(s, s.cs[0], k.m, rest);
      Lands(CompileWord(s, w), s, k, k', base, 0, [], [k.m]);
    }
  }

  lemma {:induction false} IfElseShape(k: Ctx, cur: Stmt, base: seq<int>, w: Word, n: int)
    requires (w == WElse || w == WThen) && Advance(k, cur, w, n).Parse?
    ensures k.InIf? || k.InElse?
    ensures w == WElse ==>
              FlagOf(w) == ELSE &&
              StackOf(Advance(k, cur, w, n).k, base) == [THEN, n + 1] + StackOf(k.up, base) &&
              Pending(k) + multiset([n + 1]) == Pending(Advance(k, cur, w, n).k) + multiset([k.m])
    ensures w == WThen ==>
              FlagOf(w) == THEN && Advance(k, cur, w, n).k == k.up &&
              Pending(k) + multiset([]) == Pending(k.up) + multiset([k.m])
  {
  }

  lemma {:induction false} BeginAccepted(s: CState, k: Ctx, cur: Stmt, base: seq<int>, w: Word)
    requires Agree(s, k, base) && (w == WUntil || w == WAgain || w == WWhile)
    requires Advance(k, cur, w, |s.dict|).Parse? && s.cs != [] && HasFlag(s.cs[0], FlagOf(w))
    ensures Stepped(CompileWord(s, w), s, Advance(k, cur, w, |s.dict|).k, base)
  {
    var n, rest := |s.dict|, StackOf(k.up, base);
    hide HasFlag, CompileWord, Increasing, Did, Within;
    assert s.cs == [s.cs[0]] + ([k.top] + rest);
    if w == WWhile {
      WhileStep(s, s.cs[0], [k.top] + rest);
      assert [REPEAT, n + 1] + ([k.top] + rest) == [REPEAT, n + 1, k.top] + rest;
      Lands(CompileWord(s, w), s, k, Advance(k, cur, w, n).k, base, 2, [n + 1], []);
    } else {
      BackStep(s, s.cs[0], k.top, rest, w);
      Lands(CompileWord(s, w), s, k, k.up, base, 2, [], []);
    }
  }

  lemma {:induction false} RepeatAccepted(s: CState, k: Ctx, cur: Stmt, base: seq<int>)
    requires Agree(s, k, base) && k.InWhile? && s.cs != [] && HasFlag(s.cs[0], REPEAT)
    ensures Stepped(CompileWord(s, WRepeat), s, k.up, base)
  {
    assert k.m in Pending(k);
    var rest := StackOf(k.up, base);
    hide HasFlag, CompileWord, Increasing, Did;
    assert s.cs == [s.cs[0]] + ([k.m, k.top] + rest);
    RepeatStep(s, s.cs[0], k.m, k.top, rest);
    Lands(CompileWord(s, WRepeat), s, k, k.up, base, 2, [], [k.m]);
  }

  lemma {:induction false} LoopAccepted(s: CState, k: Ctx, cur: Stmt, base: seq<int>, w: Word)
    requires Agree(s, k, base) && k.InDo? && (w == WLoop || w == WPlusLoop)
    requires s.cs != [] && HasFlag(s.cs[0], FlagOf(w))
    ensures Stepped(CompileWord(s, w), s, k.up, base)
  {
    assert k.m in Pending(k);
    var rest := StackOf(k.up, base);
    hide HasFlag, CompileWord, Increasing, Did;
    assert s.cs == [s.cs[0]] + ([k.top, k.m] + rest);
    LoopStep(s, s.cs[0], k.top, k.m, rest, w);
    Lands(CompileWord(s, w), s, k, k.up, base, 2, [], [k.m]);
  }

  lemma {:induction false} OfAccepted(s: CState, k: Ctx, cur: Stmt, base: seq<int>)
    requires Agree(s, k, base) && k.InCase? && s.cs != [] && HasFlag(s.cs[0], OF)
    ensures Stepped(CompileWord(s, WOf), s, Advance(k, cur, WOf, |s.dict|).k, base)
  {
    var n, rest := |s.dict|, k.marks + [0] + StackOf(k.up, base);
    var k' := Advance(k, cur, WOf, n).k;
    hide HasFlag, CompileWord, Increasing, Did, Within;
    assert s.cs == [s.cs[0]] + rest;
    OfStep(s, s.cs[0], rest);
    assert StackOf(k', base) == [ENDOF, n + 3] + rest;
    Lands(CompileWord(s, WOf), s, k, k', base, 5, [n + 3], []);
  }

  lemma {:induction false} EndofAccepted(s: CState, k: Ctx, cur: Stmt, base: seq<int>)
    requires Agree(s, k, base) && k.InOf? && s.cs != [] && HasFlag(s.cs[0], ENDOF)
    ensures Stepped(CompileWord(s, WEndof), s, Advance(k, cur, WEndof, |s.dict|).k, base)
  {
    var n, rest := |s.dict|, k.marks + [0] + StackOf(k.up, base);
    EndofShape(k, cur, base, n);
    hide *;
    var k' := Advance(k, cur, WEndof, n).k;
    EndofReady(s, k, base);
    assert s.cs == [s.cs[0]] + ([k.m] + rest);
    EndofStep(s, s.cs[0], k.m, rest);
    Lands(CompileWord(s, WEndof), s, k, k', base, 2, [n + 1], [k.m]);
  }

  lemma {:induction false} EndofReady(s: CState, k: Ctx, base: seq<int>)
    requires Agree(s, k, base) && k.InOf?
    ensures 0 < k.m < |s.dict| && s.cs == [ENDOF] + ([k.m] + (k.marks + [0] + StackOf(k.up, base)))
  {
    assert k.m in Pending(k);
    hide Pending;
    EndofStack(k.m, k.marks, StackOf(k.up, base));
  }

  lemma {:induction false} EndofStack(m: int, marks: seq<int>, rest: seq<int>)
    ensures [ENDOF, m] + marks + [0] + rest == [ENDOF] + ([m] + (marks + [0] + rest))
  {}

  lemma {:induction false} EndofShape(k: Ctx, cur: Stmt, base: seq<int>, n: int)
    requires k.InOf?
    ensures Advance(k, cur, WEndof, n).Parse?
    ensures var k' := Advance(k, cur, WEndof, n).k;
            && StackOf(k', base) == [OF + ENDCASE, n + 1] + (k.marks + [0] + StackOf(k.up, base))
            && Pending(k) + multiset([n + 1]) == Pending(k') + multiset([k.m])
  {
    var k' := Advance(k, cur, WEndof, n).k;
    assert k'.InCase? && k'.up == k.up && k'.marks == [n + 1] + k.marks;
    assert Pending(k) == Pending(k.up) + multiset(k.marks) + multiset{k.m};
    assert Pending(k') == Pending(k.up) + multiset([n + 1] + k.marks);
    assert StackOf(k', base) == [OF + ENDCASE] + ([n + 1] + k.marks) + [0] + StackOf(k.up, base);
    hide *;
    EndofCells(n, k.marks, StackOf(k.up, base));
    EndofMarks(Pending(k.up), k.marks, k.m, n + 1);
  }

  lemma {:induction false} EndofMarks(p: multiset<int>, marks: seq<int>, m: int, m': int)
    ensures p + multiset(marks) + multiset{m} + multiset([m']) == p + multiset([m'] + marks) + multiset([m])
  {
    assert multiset([m'] + marks) == multiset([m']) + multiset(marks);
    assert multiset([m]) == multiset{m};
  }

  lemma {:induction false} EndofCells(n: int, marks: seq<int>, rest: seq<int>)
    ensures [OF + ENDCASE] + ([n + 1] + marks) + [0] + rest == [OF + ENDCASE, n + 1] + (marks + [0] + rest)
  {}

  lemma {:induction false} EndcaseAccepted(s: CState, k: Ctx, cur: Stmt, base: seq<int>)
    requires Agree(s, k, base) && k.InCase? && s.cs != [] && HasFlag(s.cs[0], ENDCASE)
    ensures Stepped(CompileWord(s, WEndcase), s, k.up, base)
  {
    var rest := StackOf(k.up, base);
    hide HasFlag, CompileWord, Increasing, Did;
    assert s.cs == [s.cs[0]] + (k.marks + [0] + rest);
    forall i | 0 <= i < |k.marks| ensures 0 < k.marks[i] < |s.dict| {
      assert k.marks[i] in multiset(k.marks);
      assert k.marks[i] in Pending(k);
    }
    EndcaseStep(s, s.cs[0], k.marks, rest);
    Lands(CompileWord(s, WEndcase), s, k, k.up, base, 1, [], k.marks);
  }

  lemma {:induction false} CheckingAccepted(s: CState, k: Ctx, cur: Stmt, base: seq<int>, w: Word)
    requires Agree(s, k, base) && Checks(w) && Advance(k, cur, w, |s.dict|).Parse?
    requires s.cs != [] && HasFlag(s.cs[0], FlagOf(w))
    ensures Stepped(CompileWord(s, w), s, Advance(k, cur, w, |s.dict|).k, base)
  {
    hide CompileWord, HasFlag, Stepped, Agree;
    match w
    case WElse => IfElseAccepted(s, k, cur, base, w);
    case WThen => IfElseAccepted(s, k, cur, base, w);
    case WUntil => BeginAccepted(s, k, cur, base, w);
    case WAgain => BeginAccepted(s, k, cur, base, w);
    case WWhile => BeginAccepted(s, k, cur, base, w);
    case WRepeat => RepeatAccepted(s, k, cur, base);
    case WLoop => LoopAccepted(s, k, cur, base, w);
    case WPlusLoop => LoopAccepted(s, k, cur, base, w);
    case WOf => OfAccepted(s, k, cur, base);
    case WEndof => EndofAccepted(s, k, cur, base);
    case WEndcase => EndcaseAccepted(s, k, cur, base);
  }

  /** Every word: the compiler accepts it exactly when the parser can advance. */
  lemma {:induction false} StepAgrees(s: CState, k: Ctx, cur: Stmt, base: seq<int>, w: Word)
    requires Agree(s, k, base) && base != [] && FlagFree(base[0]) && Known(w, s)
    ensures var p := Advance(k, cur, w, |s.dict|); var r := CompileWord(s, w);
            if p.Parse? then Stepped(r, s, p.k, base) else r == Illegal
  {
    assert s.cs == StackOf(k, base);
    hide CompileWord, Advance, HasFlag, Stepped, Agree, StackOf, FlagFree;
    if Checks(w) {
      FlagDecides(k, cur, base, w, |s.dict|);
      if Advance(k, cur, w, |s.dict|).Parse? {
        CheckingAccepted(s, k, cur, base, w);
      } else {
        Refused(s, w);
      }
    } else if Opens(w) {
      OpensAgree(s, k, cur, base, w);
    } else {
      AtomAgrees(s, k, cur, base, w);
    }
  }

  /** An accepted word sequence was parsed completely. */
  lemma {:induction false} RunAgrees(s: CState, k: Ctx, cur: Stmt, base: seq<int>, ws: seq<Word>)
    returns (k': Ctx, cur': Stmt)
    requires Agree(s, k, base) && base != [] && FlagFree(base[0])
    requires Sound(k) && Proper(cur)
    requires forall w :: w in ws ==> Known(w, s)
    ensures !CompileWords(s, ws).Wild?
    ensures CompileWords(s, ws).Ok? ==>
              && Agree(CompileWords(s, ws).s, k', base) && Sound(k') && Proper(cur')
              && Prefix(k') + Flatten(cur') == Prefix(k) + Flatten(cur) + ws
    decreases |ws|
  {
    hide CompileWord, Advance, Prefix, Flatten, Agree;
    k', cur' := k, cur;
    if ws != [] {
      assert Known(ws[0], s);
      StepAgrees(s, k, cur, base, ws[0]);
      var p := Advance(k, cur, ws[0], |s.dict|);
      if p.Parse? {
        AdvanceWords(k, cur, ws[0], |s.dict|);
        assert forall w :: w in ws[1..] ==> w in ws && Known(w, s);
        k', cur' := RunAgrees(CompileWord(s, ws[0]).s, p.k, p.cur, base, ws[1..]);
        assert [ws[0]] + ws[1..] == ws;
        assert Prefix(k) + Flatten(cur) + [ws[0]] + ws[1..] == Prefix(k) + Flatten(cur) + ([ws[0]] + ws[1..]);
      }
    }
  }

  lemma {:induction false} DeeperThanBase(k: Ctx, base: seq<int>)
    ensures |StackOf(k, base)| >= |base|
    ensures |StackOf(k, base)| == |base| ==> k == Outside
  {
    match k
    case Outside =>
    case _ => DeeperThanBase(k.up, base);
  }

  /** Words of a well-nested source only use macros the table knows. */
  lemma {:induction false} KnownIsMacrosKnown(c: Stmt, n: nat)
    requires forall w :: w in Flatten(c) ==> (w.WMacro? ==> w.d < n)
    ensures MacrosKnown(c, n)
    decreases c
  {
    match c
    case Skip =>
    case Seq(a, b) => KnownIsMacrosKnown(a, n); KnownIsMacrosKnown(b, n);
    case Atom(w) => assert w in Flatten(c);
    case If(t) => KnownIsMacrosKnown(t, n);
    case IfElse(t, e) => KnownIsMacrosKnown(t, n); KnownIsMacrosKnown(e, n);
    case Again(b) => KnownIsMacrosKnown(b, n);
    case Until(b) => KnownIsMacrosKnown(b, n);
    case While(t, b) => KnownIsMacrosKnown(t, n); KnownIsMacrosKnown(b, n);
    case Case(arms) => KnownIsMacrosKnownArms(arms, n);
    case Do(_, b, _) => KnownIsMacrosKnown(b, n);
  }

  lemma {:induction false} KnownIsMacrosKnownArms(arms: Arms, n: nat)
    requires forall w :: w in FlattenArms(arms) ==> (w.WMacro? ==> w.d < n)
    ensures MacrosKnownArms(arms, n)
    decreases arms
  {
    match arms
    case Default(d) => KnownIsMacrosKnown(d, n);
    case Arm(p, b, rest) =>
      KnownIsMacrosKnown(p, n);
      KnownIsMacrosKnown(b, n);
      KnownIsMacrosKnownArms(rest, n);
  }

  /** Main theorem. Above a flag-free base cell, a word sequence is compiled without an
      abort back to the base depth exactly when it is well nested. No store ever goes
      astray, the cells below are intact, and each forward mark is resolved exactly once. */
  lemma {:induction false} ExactAcceptor(s: CState, u: Unit, ws: seq<Word>)
    requires At(s, u, 0) && s.cs != [] && FlagFree(s.cs[0]) && s.marked == s.resolved == []
    requires forall w :: w in ws ==> (w.WMacro? ==> w.d < |u.bodies|)
    ensures var r := CompileWords(s, ws);
            && !r.Wild?
            && (r.Ok? && |r.s.cs| == |s.cs| <==> WellNested(ws))
            && (r.Ok? && |r.s.cs| == |s.cs| ==>
                  && r.s.cs == s.cs
                  && multiset(r.s.marked) == multiset(r.s.resolved)
                  && (forall i, j :: 0 <= i < j < |r.s.marked| ==> r.s.marked[i] != r.s.marked[j]))
  {
    var r := CompileWords(s, ws);
    assert forall w :: w in ws ==> Known(w, s);
    var k, cur := RunAgrees(s, Outside, Skip, s.cs, ws);
    if r.Ok? && |r.s.cs| == |s.cs| {
      DeeperThanBase(k, s.cs);
      assert Flatten(cur) == ws by {
        assert Prefix(Outside) + Flatten(cur) == Flatten(cur);
        assert Prefix(Outside) + Flatten(Skip) + ws == ws;
      }
    }
    if WellNested(ws) {
      var c :| Proper(c) && Flatten(c) == ws;
      KnownIsMacrosKnown(c, |u.bodies|);
      OnePassIsStructured(s, c, u, 0);
    }
  }
}
