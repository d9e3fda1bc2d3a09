/** Exception frames. `(exception>)` pushes a frame on the return stack and links it through
    `ep`; `(exception;)` unlinks it; `raise` cuts the return stack back to the innermost
    frame and resumes its handler. The machine is proved to implement structured handlers,
    and the `ep` chain is intact in every state of every run. */
module Exceptions {
  import opened Options
  import opened Arithmetic

  /** Parameter-stack registers, memory and the argument frame pointer. */
  datatype Data = Data(tos: int, sp: int, pm: seq<int>, fp: int)

  /** `spush` and `spop`; `None` is an access outside the memory. */
  function Spush(x: Data, v: int): Opt<Data> {
    if 0 < x.sp <= |x.pm| then Some(x.(sp := x.sp - 1, pm := x.pm[x.sp - 1 := x.tos], tos := v)) else None
  }

  function Spop(x: Data): Opt<Data> {
    if 0 <= x.sp < |x.pm| then Some(x.(tos := x.pm[x.sp], sp := x.sp + 1)) else None
  }

  /** Words that touch the data only; words that push one cell on the return stack (`>r`,
      `(link)`); and the words that take it off again (`r>`, `(unlink)`). */
  datatype Words = Words(
    plain: (nat, Data) -> Opt<Data>,
    enter: (nat, Data) -> Opt<(Data, int)>,
    leave: (nat, Data, int) -> Opt<Data>)

  datatype Cell =
    | Prim(id: nat) | Enter(k: nat) | Leave(k: nat)
    | CallTo(d: nat) | RaiseTok | CatchTok | ThrowTok | SemiTok
    | QBranchTok | BranchTok | DoTok | LoopTok | PlusLoopTok | IndexTok(outer: bool) | LeaveTok | Off(n: int)

  // ----- source -----

  datatype Stmt =
    | Skip
    | Seq(first: Stmt, second: Stmt)
    | Plain(id: nat)
    | Framed(k: nat, body: Stmt)     // one cell on the return stack around the body
    | IfElse(thn: Stmt, els: Stmt)
    | Until(body: Stmt)              // begin body until
    | Do(body: Stmt, plus: bool)     // do body loop, or +loop: three cells around the body
    | Index(outer: bool)             // i or j
    | LeaveLoop                      // leave
    | Call(d: nat)
    | Raise

  /** A definition, protected by a handler (`exception>`) or not. */
  datatype Def = Unguarded(body: Stmt) | Guarded(body: Stmt, handler: Stmt)

  /** An enclosing counted loop with nothing on the return stack between. */
  datatype Loop = Loop(limit: int, index: int)

  /** `Left` is the end by `leave`; `Raised` carries the signal and the data left when it was
      raised. */
  datatype Res = Done(x: Data) | Left(x: Data) | Raised(signal: int, x: Data) | Wrong | Timeout

  /** A body with a cell of its own or a call around it has no loop to leave. */
  function NotLeft(r: Res): Res { if r.Left? then Wrong else r }

  /** Calling a guarded word pushes and pops its body address. */
  function Guard(x: Data, body: int): Opt<Data> {
    match Spush(x, body)
    case None => None
    case Some(p) => Spop(p)
  }

  /** The data a handler starts with: depth, top cell and frame pointer as they were when
      the protected call was made, the signal on top, memory as the body left it. */
  function Resumed(at: Data, raised: Data, signal: int): Opt<Data> {
    Spush(raised.(tos := at.tos, sp := at.sp, fp := at.fp), signal)
  }

  /** The limit and the start index that `(do)` pops, and the data without them. */
  function TwoCells(x: Data): Opt<(int, int, Data)> {
    var p := Spop(x);
    if p.None? then None
    else var q := Spop(p.val); if q.None? then None else Some((p.val.tos, x.tos, q.val))
  }

  /** The end of a loop's turn: the data, the index moved on, and whether there is another. */
  function Turn(plus: bool, x: Data, l: Loop): Opt<(Data, Loop, bool)> {
    if !plus then
      var index := Wrap(l.index + 1);
      Some((x, Loop(l.limit, index), l.limit > index))
    else
      var p := Spop(x);
      var index := Wrap(l.index + x.tos);
      if p.None? then None
      else Some((p.val, Loop(l.limit, index), if x.tos > 0 then l.limit > index else l.limit < index))
  }

  function Eval(w: Words, defs: seq<Def>, entry: seq<int>, f: nat, c: Stmt, x: Data, loops: seq<Loop>): Res
    decreases f, c, 0
  {
    match c
    case Skip => Done(x)
    case Seq(a, b) =>
      var r := Eval(w, defs, entry, f, a, x, loops);
      if r.Done? then Eval(w, defs, entry, f, b, r.x, loops) else r
    case Plain(id) => var r := w.plain(id, x); if r.Some? then Done(r.val) else Wrong
    case Framed(k, b) =>
      var e := w.enter(k, x);
      if e.None? then Wrong
      else
        var r := Eval(w, defs, entry, f, b, e.val.0, []);
        if !r.Done? then NotLeft(r)
        else var l := w.leave(k, r.x, e.val.1); if l.Some? then Done(l.val) else Wrong
    case IfElse(t, e) =>
      var p := Spop(x);
      if p.None? then Wrong else Eval(w, defs, entry, f, if x.tos != 0 then t else e, p.val, loops)
    case Until(b) =>
      var r := Eval(w, defs, entry, f, b, x, loops);
      if !r.Done? then r
      else
        var p := Spop(r.x);
        if p.None? then Wrong
        else if r.x.tos != 0 then Done(p.val)
        else if f == 0 then Timeout
        else Eval(w, defs, entry, f - 1, c, p.val, loops)
    case Do(b, plus) =>
      var l := TwoCells(x);
      if l.None? then Wrong else EvalLoop(w, defs, entry, f, b, plus, Loop(l.val.0, l.val.1), l.val.2, loops)
    case Index(outer) =>
      if |loops| < (if outer then 2 else 1) then Wrong
      else var r := Spush(x, loops[if outer then 1 else 0].index); if r.Some? then Done(r.val) else Wrong
    case LeaveLoop => if loops == [] then Wrong else Left(x)
    case Call(d) =>
      if d >= |defs| || d >= |entry| then Wrong
      else if f == 0 then Timeout
      else EvalDef(w, defs, entry, f - 1, d, x)
    case Raise => var p := Spop(x); if p.Some? then Raised(x.tos, p.val) else Wrong
  }

  /** The turns of a counted loop. */
  function EvalLoop(w: Words, defs: seq<Def>, entry: seq<int>, f: nat, b: Stmt, plus: bool, l: Loop, x: Data,
                    loops: seq<Loop>): (r: Res)
    ensures !r.Left?
    decreases f, b, 1
  {
    var r := Eval(w, defs, entry, f, b, x, [l] + loops);
    if r.Left? then Done(r.x)
    else if !r.Done? then r
    else
      var t := Turn(plus, r.x, l);
      if t.None? then Wrong
      else if !t.val.2 then Done(t.val.0)
      else if f == 0 then Timeout
      else EvalLoop(w, defs, entry, f - 1, b, plus, t.val.1, t.val.0, loops)
  }

  /** A definition from its entry: a guarded one runs its handler when its body raises. */
  function EvalDef(w: Words, defs: seq<Def>, entry: seq<int>, f: nat, d: nat, x: Data): (r: Res)
    requires d < |defs| && d < |entry|
    ensures !r.Left?
    decreases f, defs[d], 1
  {
    match defs[d]
    case Unguarded(body) => NotLeft(Eval(w, defs, entry, f, body, x, []))
    case Guarded(body, handler) =>
      var at := Guard(x, entry[d]);
      if at.None? then Wrong
      else
        var r := Eval(w, defs, entry, f, body, at.val, []);
        if !r.Raised? then NotLeft(r)
        else
          var h := Resumed(at.val, r.x, r.signal);
          if h.Some? then NotLeft(Eval(w, defs, entry, f, handler, h.val, [])) else Wrong
  }

  // ----- compiled code -----

  function Emit(c: Stmt): seq<Cell> {
    match c
    case Skip => []
    case Seq(a, b) => Emit(a) + Emit(b)
    case Plain(id) => [Prim(id)]
    case Framed(k, b) => [Enter(k)] + Emit(b) + [Leave(k)]
    case IfElse(t, e) =>
      [QBranchTok, Off(|Emit(t)| + 3)] + Emit(t) + [BranchTok, Off(|Emit(e)| + 1)] + Emit(e)
    case Until(b) => Emit(b) + [QBranchTok, Off(-(|Emit(b)| + 1))]
    case Do(b, plus) =>
      [DoTok, Off(|Emit(b)| + 3)] + Emit(b) + [if plus then PlusLoopTok else LoopTok, Off(-(|Emit(b)| + 1))]
    case Index(outer) => [IndexTok(outer)]
    case LeaveLoop => [LeaveTok]
    case Call(d) => [CallTo(d)]
    case Raise => [RaiseTok]
  }

  /** Body, its exit, and for a guarded definition the cell its code field points at. */
  function Layout(d: Def): seq<Cell> {
    match d
    case Unguarded(b) => Emit(b) + [SemiTok]
    case Guarded(b, h) => Emit(b) + [ThrowTok] + [CatchTok] + Emit(h) + [SemiTok]
  }

  /** `entry` holds the parameter field (body address), `code` the code field of a guarded
      entry (address of its `(exception>)`). */
  datatype Image = Image(words: Words, mem: seq<Cell>, entry: seq<int>, code: seq<Opt<int>>)

  /** `rs` is the return stack, top first. `ep` is the height of the return stack at the
      innermost exception frame, 0 for none. `live` counts protected calls entered and not
      yet left, by either exit; the machine does not use it. */
  datatype State = State(ip: int, x: Data, rs: seq<int>, ep: int, live: nat)

  /** `fcatch`, the body address already popped into `body`. */
  function Catch(s: State, x: Data, body: int): State {
    var rs := [s.ep, x.fp, s.ip + 1, x.sp, x.tos] + s.rs;
    State(body, x, rs, |rs|, s.live + 1)
  }

  /** `fthrow` */
  function Throw(s: State): Opt<State> {
    if |s.rs| < 6 || s.live == 0 then None
    else Some(State(s.rs[5], s.x, s.rs[6..], s.rs[0], s.live - 1))
  }

  /** `doraise` when there is an exception block. */
  function RaiseTo(s: State, x: Data): Opt<State>
    requires s.ep != 0
  {
    if !(5 <= s.ep <= |s.rs|) || s.live == 0 then None
    else
      var rs := s.rs[|s.rs| - s.ep..];
      match Spush(x.(tos := rs[4], sp := rs[3], fp := rs[1]), s.x.tos)
      case None => None
      case Some(y) => Some(State(rs[2], y, rs[5..], rs[0], s.live - 1))
  }

  function Next(s: State, x: Opt<Data>): Opt<State> {
    if x.Some? then Some(s.(ip := s.ip + 1, x := x.val)) else None
  }

  /** One thread. A raise with no handler has no next state: it goes to `error_signal`. */
  function Step(w: Image, s: State): Opt<State> {
    if !(0 <= s.ip < |w.mem|) then None
    else
      match w.mem[s.ip]
      case Prim(id) => Next(s, w.words.plain(id, s.x))
      case Enter(k) =>
        var e := w.words.enter(k, s.x);
        if e.Some? then Some(s.(ip := s.ip + 1, x := e.val.0, rs := [e.val.1] + s.rs)) else None
      case Leave(k) =>
        if s.rs == [] then None
        else Next(s.(rs := s.rs[1..]), w.words.leave(k, s.x, s.rs[0]))
      case CallTo(d) =>
        if d >= |w.entry| || d >= |w.code| then None
        else
          var s' := s.(rs := [s.ip + 1] + s.rs);
          if w.code[d].None? then Some(s'.(ip := w.entry[d]))
          else
            var p := Spush(s.x, w.entry[d]);
            if p.Some? then Some(s'.(ip := w.code[d].val, x := p.val)) else None
      case RaiseTok =>
        if s.ep == 0 then None
        else var p := Spop(s.x); if p.Some? then RaiseTo(s, p.val) else None
      case CatchTok =>
        var p := Spop(s.x);
        if p.Some? then Some(Catch(s, p.val, s.x.tos)) else None
      case ThrowTok => Throw(s)
      case SemiTok => if s.rs == [] then None else Some(s.(ip := s.rs[0], rs := s.rs[1..]))
      case QBranchTok =>
        var p := Spop(s.x);
        if p.None? then None
        else if s.x.tos != 0 then Some(s.(ip := s.ip + 2, x := p.val))
        else Jump(w, s.(x := p.val))
      case BranchTok => Jump(w, s)
      case DoTok =>
        var l := TwoCells(s.x);
        if l.None? then None
        else Some(s.(ip := s.ip + 2, x := l.val.2, rs := [l.val.0, l.val.1, s.ip + 1] + s.rs))
      case LoopTok =>
        if |s.rs| < 3 then None
        else
          var index := Wrap(s.rs[1] + 1);
          if s.rs[0] > index then Jump(w, s.(rs := s.rs[1 := index]))
          else Some(s.(ip := s.ip + 2, rs := s.rs[3..]))
      case PlusLoopTok =>
        var p := Spop(s.x);
        if |s.rs| < 3 || p.None? then None
        else
          var index := Wrap(s.rs[1] + s.x.tos);
          if if s.x.tos > 0 then s.rs[0] > index else s.rs[0] < index then
            Jump(w, s.(x := p.val, rs := s.rs[1 := index]))
          else Some(s.(ip := s.ip + 2, x := p.val, rs := s.rs[3..]))
      case IndexTok(outer) =>
        var n := if outer then 4 else 1;
        if n < |s.rs| then Next(s, Spush(s.x, s.rs[n])) else None
      case LeaveTok =>
        if |s.rs| < 3 then None
        else
          var to := Landing(w.mem, s.rs[2]);
          if to.Some? then Some(s.(ip := to.val, rs := s.rs[3..])) else None
      case Off(_) => None
  }

  /** Where the offset cell at `p` points. */
  function Landing(mem: seq<Cell>, p: int): Opt<int> {
    if 0 <= p < |mem| && mem[p].Off? then Some(p + mem[p].n) else None
  }

  function Jump(w: Image, s: State): Opt<State> {
    if 0 <= s.ip + 1 < |w.mem| && w.mem[s.ip + 1].Off? then Some(s.(ip := s.ip + 1 + w.mem[s.ip + 1].n)) else None
  }

  /** The `ep` links, starting at height `ep`, run through `n` frames of the return stack
      and end at 0; each frame lies below the one that links to it. */
  ghost predicate Chain(rs: seq<int>, ep: int, n: nat)
    decreases n
  {
    if n == 0 then ep == 0
    else 6 <= ep <= |rs| && Chain(rs[|rs| - ep + 6..], rs[|rs| - ep], n - 1)
  }

  ghost predicate Inv(s: State) { Chain(s.rs, s.ep, s.live) }

  /** `n` threads, the chain being intact in every state on the way. */
  ghost function Run(w: Image, n: nat, s: State): Opt<State> {
    if !Inv(s) then None
    else if n == 0 then Some(s)
    else var r := Step(w, s); if r.Some? then Run(w, n - 1, r.val) else None
  }

  ghost predicate Reaches(w: Image, s: State, t: State) {
    exists n: nat :: Run(w, n, s) == Some(t)
  }

  ghost predicate Runs(w: Image, f: nat, s: State) { Run(w, f, s).Some? }

  lemma {:induction false} RunAdd(w: Image, m: nat, n: nat, s: State)
    ensures Run(w, m + n, s) == (var r := Run(w, m, s); if r.Some? then Run(w, n, r.val) else None)
    decreases m
  {
    hide Step, Inv;
    if m > 0 && Inv(s) && Step(w, s).Some? { RunAdd(w, m - 1, n, Step(w, s).val); }
  }

  lemma {:induction false} ReachSelf(w: Image, s: State)
    requires Inv(s)
    ensures Reaches(w, s, s)
  {
    hide Step, Inv;
    assert Run(w, 0, s) == Some(s);
  }

  lemma {:induction false} ReachStep(w: Image, s: State, t: State, u: State)
    requires Inv(s) && Step(w, s) == Some(t) && Reaches(w, t, u)
    ensures Reaches(w, s, u)
  {
    hide Step, Inv;
    var n: nat :| Run(w, n, t) == Some(u);
    assert Run(w, n + 1, s) == Some(u);
  }

  lemma {:induction false} ReachOne(w: Image, s: State, t: State)
    requires Inv(s) && Step(w, s) == Some(t) && Inv(t)
    ensures Reaches(w, s, t)
  {
    hide Step, Inv;
    ReachSelf(w, t);
    ReachStep(w, s, t, t);
  }

  lemma {:induction false} ReachTrans(w: Image, s: State, t: State, u: State)
    requires Reaches(w, s, t) && Reaches(w, t, u)
    ensures Reaches(w, s, u)
  {
    hide Step, Inv;
    var m: nat :| Run(w, m, s) == Some(t);
    var n: nat :| Run(w, n, t) == Some(u);
    RunAdd(w, m, n, s);
  }

  lemma {:induction false} RunsAfter(w: Image, f: nat, s: State, t: State)
    requires Reaches(w, s, t) && Runs(w, f, t)
    ensures Runs(w, f, s)
  {
    hide Step, Inv;
    var n: nat :| Run(w, n, s) == Some(t);
    RunAdd(w, n, f, s);
    RunAdd(w, f, n, s);
  }

  lemma {:induction false} ReachedInv(w: Image, s: State, t: State)
    requires Reaches(w, s, t)
    ensures Inv(t)
  {
    hide Step, Inv;
    var n: nat :| Run(w, n, s) == Some(t);
    RunAdd(w, n, 0, s);
    assert Run(w, 0, t).Some?;
  }

  /** More cells on the return stack leave the chain below them as it is. */
  lemma {:induction false} ChainPush(more: seq<int>, rs: seq<int>, ep: int, n: nat)
    requires Chain(rs, ep, n)
    ensures Chain(more + rs, ep, n)
  {
    if n > 0 {
      var all := more + rs;
      assert all[|all| - ep + 6..] == rs[|rs| - ep + 6..];
    }
  }

  // ----- simulation -----

  ghost predicate CellsAt(mem: seq<Cell>, a: int, cells: seq<Cell>) {
    0 <= a && a + |cells| <= |mem| && mem[a..a + |cells|] == cells
  }

  lemma {:induction false} CellsSplit(mem: seq<Cell>, a: int, x: seq<Cell>, y: seq<Cell>)
    requires CellsAt(mem, a, x + y)
    ensures CellsAt(mem, a, x) && CellsAt(mem, a + |x|, y)
  {
    assert mem[a..a + |x|] == mem[a..a + |x + y|][..|x|];
    assert mem[a + |x|..a + |x| + |y|] == mem[a..a + |x + y|][|x|..];
  }

  lemma {:induction false} CellAt(mem: seq<Cell>, a: int, cells: seq<Cell>, i: nat)
    requires CellsAt(mem, a, cells) && i < |cells|
    ensures 0 <= a + i < |mem| && mem[a + i] == cells[i]
  {
    assert mem[a..a + |cells|][i] == mem[a + i];
  }

  ghost predicate Loaded(w: Image, defs: seq<Def>) {
    && |w.entry| == |defs| == |w.code|
    && forall d :: 0 <= d < |defs| ==>
         && CellsAt(w.mem, w.entry[d], Layout(defs[d]))
         && w.code[d] == (match defs[d]
                          case Unguarded(_) => None
                          case Guarded(b, _) => Some(w.entry[d] + |Emit(b)| + 1))
  }

  /** The machine has reached a raise of `signal` that belongs to the frame that was
      innermost in `s`: same `ep`, more cells on the return stack at most. */
  ghost predicate AtRaise(w: Image, s: State, t: State, signal: int, x: Data) {
    Reaches(w, s, t) && Raises(w, t, signal, x) && Above(t, s)
  }

  /** `raise` is next, and what it is given. */
  ghost predicate Raises(w: Image, t: State, signal: int, x: Data) {
    && 0 <= t.ip < |w.mem| && w.mem[t.ip] == RaiseTok
    && t.x.tos == signal && Spop(t.x) == Some(x)
  }

  /** The state with instruction pointer `ip`, data `x` and return stack `rs`, the exception
      registers being those of `s`. */
  function Later(s: State, ip: int, x: Data, rs: seq<int>): State {
    State(ip, x, rs, s.ep, s.live)
  }

  /** What the machine does from `s` when the source evaluates to `r`: a normal end is at
      `ip` with return stack `rs`, and `leave` is at the end of the innermost loop. */
  ghost predicate Simulates(w: Image, f: nat, s: State, ip: int, rs: seq<int>, r: Res) {
    match r
    case Done(x) => Reaches(w, s, Later(s, ip, x, rs))
    case Left(x) =>
      |s.rs| >= 3 && Landing(w.mem, s.rs[2]).Some? &&
      Reaches(w, s, Later(s, Landing(w.mem, s.rs[2]).val, x, s.rs[3..]))
    case Raised(signal, x) => exists t :: AtRaise(w, s, t, signal, x)
    case Timeout => Runs(w, f, s)
    case Wrong => true
  }

  /** The cells of the open loops are on top of the return stack, above every exception frame. */
  ghost predicate Open(mem: seq<Cell>, rs: seq<int>, ep: int, n: nat, loops: seq<Loop>)
    decreases |loops|
  {
    && Chain(rs, ep, n)
    && (loops != [] ==>
          && |rs| >= 3 && rs[0] == loops[0].limit && rs[1] == loops[0].index && Landing(mem, rs[2]).Some?
          && Open(mem, rs[3..], ep, n, loops[1..]))
  }

  /** `t` has the exception registers of `s` and at least its return stack. */
  ghost predicate Above(t: State, s: State) {
    t.ep == s.ep && t.live == s.live && |t.rs| >= |s.rs| && t.rs[|t.rs| - |s.rs|..] == s.rs
  }

  lemma {:induction false} SimAfter(w: Image, f: nat, s: State, t: State, ip: int, rs: seq<int>, r: Res)
    requires Reaches(w, s, t) && Simulates(w, f, t, ip, rs, r) && Above(t, s) && (r.Left? ==> t.rs == s.rs)
    ensures Simulates(w, f, s, ip, rs, r)
  {
    hide Reaches, Runs;
    match r
    case Done(x) => ReachTrans(w, s, t, Later(t, ip, x, rs));
    case Left(x) => ReachTrans(w, s, t, Later(t, Landing(w.mem, t.rs[2]).val, x, t.rs[3..]));
    case Raised(signal, x) =>
      var u :| AtRaise(w, t, u, signal, x);
      ReachTrans(w, s, t, u);
      assert u.rs[|u.rs| - |s.rs|..] == u.rs[|u.rs| - |t.rs|..][|t.rs| - |s.rs|..];
      assert AtRaise(w, s, u, signal, x);
    case Timeout => RunsAfter(w, f, s, t);
    case Wrong =>
  }

  /** A step that pays for one unit of fuel. */
  lemma {:induction false} Paid(w: Image, f: nat, s: State, t: State, ip: int, rs: seq<int>, r: Res)
    requires Inv(s) && Step(w, s) == Some(t) && Inv(t) && f > 0
    requires Simulates(w, f - 1, t, ip, rs, r) && Above(t, s) && (r.Left? ==> t.rs == s.rs)
    ensures Simulates(w, f, s, ip, rs, r)
  {
    hide Step, Inv;
    if r.Timeout? {
      assert Runs(w, f, s);
    } else {
      hide Reaches, Runs;
      ReachOne(w, s, t);
      SimAfter(w, f - 1, s, t, ip, rs, r);
    }
  }

  /** After a normal end at `mid` one more thread leads on. */
  lemma {:induction false} SimThen(w: Image, f: nat, s: State, mid: int, midRs: seq<int>, ip: int, rs: seq<int>,
                                   r: Res, r': Res)
    requires Simulates(w, f, s, mid, midRs, r)
    requires r.Done? && r'.Done? ==> Step(w, Later(s, mid, r.x, midRs)) == Some(Later(s, ip, r'.x, rs))
    requires Chain(rs, s.ep, s.live)
    requires if r.Done? then r'.Done? || r'.Wrong? else r' == r || r'.Wrong?
    ensures Simulates(w, f, s, ip, rs, r')
  {
    hide Step, Reaches, Runs;
    if r.Done? && r'.Done? {
      ReachedInv(w, s, Later(s, mid, r.x, midRs));
      ReachOne(w, Later(s, mid, r.x, midRs), Later(s, ip, r'.x, rs));
      ReachTrans(w, s, Later(s, mid, r.x, midRs), Later(s, ip, r'.x, rs));
    }
  }

  lemma {:induction false} AtOnce(w: Image, f: nat, s: State, ip: int, rs: seq<int>, r: Res)
    requires Inv(s) && (r.Wrong? || (r.Timeout? && f == 0))
    ensures Simulates(w, f, s, ip, rs, r)
  {}

  lemma {:induction false} Simulation(w: Image, defs: seq<Def>, f: nat, c: Stmt, s: State, loops: seq<Loop>)
    requires Loaded(w, defs) && CellsAt(w.mem, s.ip, Emit(c)) && Inv(s) && Open(w.mem, s.rs, s.ep, s.live, loops)
    ensures Simulates(w, f, s, s.ip + |Emit(c)|, s.rs, Eval(w.words, defs, w.entry, f, c, s.x, loops))
    decreases f, c, 2
  {
    hide *;
    match c
    case Seq(a, b) => SimSeq(w, defs, f, a, b, s, loops);
    case Framed(k, b) => SimFramed(w, defs, f, k, b, s, loops);
    case IfElse(t, e) => SimIfElse(w, defs, f, t, e, s, loops);
    case Until(b) => SimUntil(w, defs, f, b, s, loops);
    case Do(b, plus) => SimDo(w, defs, f, b, plus, s, loops);
    case Call(d) => EmitCall(d); SimCall(w, defs, f, d, s, loops);
    case _ => SimWord(w, defs, f, c, s, loops);
  }

  lemma {:induction false} EmitCall(d: nat)
    ensures Emit(Call(d)) == [CallTo(d)] && |Emit(Call(d))| == 1
  {}

  /** One word. */
  lemma {:induction false} SimWord(w: Image, defs: seq<Def>, f: nat, c: Stmt, s: State, loops: seq<Loop>)
    requires c.Skip? || c.Plain? || c.Index? || c.LeaveLoop? || c.Raise?
    requires CellsAt(w.mem, s.ip, Emit(c)) && Inv(s) && Open(w.mem, s.rs, s.ep, s.live, loops)
    ensures Simulates(w, f, s, s.ip + |Emit(c)|, s.rs, Eval(w.words, defs, w.entry, f, c, s.x, loops))
  {
    hide Reaches, Runs, Chain;
    match c
    case Skip => ReachSelf(w, s);
    case Plain(id) =>
      CellAt(w.mem, s.ip, Emit(c), 0);
      var r := w.words.plain(id, s.x);
      if r.Some? { ReachOne(w, s, Later(s, s.ip + 1, r.val, s.rs)); }
    case Index(outer) =>
      var r := Eval(w.words, defs, w.entry, f, c, s.x, loops);
      if r.Done? { SimIndex(w, s, outer, loops); }
    case LeaveLoop => if loops != [] { SimLeft(w, s, loops); }
    case Raise =>
      CellAt(w.mem, s.ip, Emit(c), 0);
      ReachSelf(w, s);
      if Spop(s.x).Some? { assert AtRaise(w, s, s, s.x.tos, Spop(s.x).val); }
  }

  lemma {:induction false} SimSeq(w: Image, defs: seq<Def>, f: nat, a: Stmt, b: Stmt, s: State, loops: seq<Loop>)
    requires Loaded(w, defs) && CellsAt(w.mem, s.ip, Emit(Seq(a, b))) && Inv(s) &&
             Open(w.mem, s.rs, s.ep, s.live, loops)
    ensures Simulates(w, f, s, s.ip + |Emit(Seq(a, b))|, s.rs, Eval(w.words, defs, w.entry, f, Seq(a, b), s.x, loops))
    decreases f, Seq(a, b), 1
  {
    hide *;
    SeqParts(w, defs, f, a, b, s, loops);
    Simulation(w, defs, f, a, s, loops);
    var r := Eval(w.words, defs, w.entry, f, a, s.x, loops);
    if r.Done? {
      var t := Later(s, s.ip + |Emit(a)|, r.x, s.rs);
      ThenOn(w, f, s, s.ip + |Emit(a)|, r);
      Simulation(w, defs, f, b, t, loops);
      SimAfter(w, f, s, t, s.ip + |Emit(Seq(a, b))|, s.rs, Eval(w.words, defs, w.entry, f, b, r.x, loops));
    } else {
      Elsewhere(w, f, s, s.ip + |Emit(a)|, s.ip + |Emit(Seq(a, b))|, r);
    }
  }

  lemma {:induction false} SeqParts(w: Image, defs: seq<Def>, f: nat, a: Stmt, b: Stmt, s: State, loops: seq<Loop>)
    requires CellsAt(w.mem, s.ip, Emit(Seq(a, b)))
    ensures |Emit(Seq(a, b))| == |Emit(a)| + |Emit(b)|
    ensures CellsAt(w.mem, s.ip, Emit(a)) && CellsAt(w.mem, s.ip + |Emit(a)|, Emit(b))
    ensures var r := Eval(w.words, defs, w.entry, f, a, s.x, loops);
            Eval(w.words, defs, w.entry, f, Seq(a, b), s.x, loops) ==
            if r.Done? then Eval(w.words, defs, w.entry, f, b, r.x, loops) else r
  {
    assert Emit(Seq(a, b)) == Emit(a) + Emit(b);
    hide CellsAt;
    CellsSplit(w.mem, s.ip, Emit(a), Emit(b));
  }

  lemma {:induction false} ThenOn(w: Image, f: nat, s: State, ip: int, r: Res)
    requires Simulates(w, f, s, ip, s.rs, r) && r.Done?
    ensures var t := Later(s, ip, r.x, s.rs);
            Reaches(w, s, t) && Inv(t) && Above(t, s) && t.ip == ip && t.x == r.x && t.rs == s.rs &&
            t.ep == s.ep && t.live == s.live
  {
    hide Inv, Reaches;
    ReachedInv(w, s, Later(s, ip, r.x, s.rs));
  }

  /** `i` and `j` */
  lemma {:induction false} SimIndex(w: Image, s: State, outer: bool, loops: seq<Loop>)
    requires CellsAt(w.mem, s.ip, [IndexTok(outer)]) && Inv(s) && Open(w.mem, s.rs, s.ep, s.live, loops)
    requires |loops| >= if outer then 2 else 1
    requires Spush(s.x, loops[if outer then 1 else 0].index).Some?
    ensures Reaches(w, s, Later(s, s.ip + 1, Spush(s.x, loops[if outer then 1 else 0].index).val, s.rs))
  {
    CellAt(w.mem, s.ip, [IndexTok(outer)], 0);
    if outer { assert s.rs[3..][1] == s.rs[4]; }
    ReachOne(w, s, Later(s, s.ip + 1, Spush(s.x, loops[if outer then 1 else 0].index).val, s.rs));
  }

  /** `leave`: the loop's cells go, its end is next. */
  lemma {:induction false} SimLeft(w: Image, s: State, loops: seq<Loop>)
    requires CellsAt(w.mem, s.ip, [LeaveTok]) && Inv(s) && loops != [] && Open(w.mem, s.rs, s.ep, s.live, loops)
    ensures |s.rs| >= 3 && Landing(w.mem, s.rs[2]).Some?
    ensures Reaches(w, s, Later(s, Landing(w.mem, s.rs[2]).val, s.x, s.rs[3..]))
  {
    CellAt(w.mem, s.ip, [LeaveTok], 0);
    ReachOne(w, s, Later(s, Landing(w.mem, s.rs[2]).val, s.x, s.rs[3..]));
  }

  /** Only a normal end depends on where the code ends. */
  lemma {:induction false} Elsewhere(w: Image, f: nat, s: State, ip: int, ip': int, r: Res)
    requires Simulates(w, f, s, ip, s.rs, r) && !r.Done?
    ensures Simulates(w, f, s, ip', s.rs, r)
  {}

  lemma {:induction false} SimFramed(w: Image, defs: seq<Def>, f: nat, k: nat, b: Stmt, s: State, loops: seq<Loop>)
    requires Loaded(w, defs) && CellsAt(w.mem, s.ip, Emit(Framed(k, b))) && Inv(s)
    ensures Simulates(w, f, s, s.ip + |Emit(Framed(k, b))|, s.rs,
                      Eval(w.words, defs, w.entry, f, Framed(k, b), s.x, loops))
    decreases f, Framed(k, b), 1
  {
    hide *;
    var n := |Emit(b)|;
    FramedCells(w, k, b, s.ip);
    FramedEval(w.words, defs, w.entry, f, k, b, s.x, loops);
    FramedStays(w.words, defs, w.entry, f, k, b, s.x, loops);
    var e := w.words.enter(k, s.x);
    if e.None? {
      AtOnce(w, f, s, s.ip + n + 2, s.rs, Wrong);
    } else {
      var t := State(s.ip + 1, e.val.0, [e.val.1] + s.rs, s.ep, s.live);
      EnterStep(w, s, k, t);
      OpenNothing(w.mem, t);
      Simulation(w, defs, f, b, t, []);
      SimLeave(w, f, k, t, n, s.rs, Eval(w.words, defs, w.entry, f, b, t.x, []),
               Eval(w.words, defs, w.entry, f, Framed(k, b), s.x, loops));
      SimAfter(w, f, s, t, s.ip + n + 2, s.rs, Eval(w.words, defs, w.entry, f, Framed(k, b), s.x, loops));
    }
  }

  lemma {:induction false} FramedCells(w: Image, k: nat, b: Stmt, a: int)
    requires CellsAt(w.mem, a, Emit(Framed(k, b)))
    ensures |Emit(Framed(k, b))| == |Emit(b)| + 2 && CellsAt(w.mem, a, [Enter(k)])
    ensures CellsAt(w.mem, a + 1, Emit(b)) && CellsAt(w.mem, a + 1 + |Emit(b)|, [Leave(k)])
  {
    hide *;
    EmitFramed(k, b);
    BracketSplit(w.mem, a, [Enter(k)], Emit(b), [Leave(k)]);
  }

  lemma {:induction false} EmitFramed(k: nat, b: Stmt)
    ensures Emit(Framed(k, b)) == [Enter(k)] + Emit(b) + [Leave(k)]
  {}

  /** The unlink word after a framed body that ended normally. */
  lemma {:induction false} SimLeave(w: Image, f: nat, k: nat, t: State, n: nat, rs: seq<int>, r: Res, r': Res)
    requires Simulates(w, f, t, t.ip + n, t.rs, r) && CellsAt(w.mem, t.ip + n, [Leave(k)])
    requires t.rs != [] && t.rs[1..] == rs && Chain(rs, t.ep, t.live)
    requires !r.Done? ==> r' == NotLeft(r)
    requires r.Done? ==> r' == (var l := w.words.leave(k, r.x, t.rs[0]); if l.Some? then Done(l.val) else Wrong)
    ensures Simulates(w, f, t, t.ip + n + 1, rs, r')
  {
    hide Step, CellsAt, Simulates, Chain, Reaches, Runs, AtRaise;
    if r.Done? && r'.Done? { LeaveStep(w, k, Later(t, t.ip + n, r.x, t.rs), Later(t, t.ip + n + 1, r'.x, rs)); }
    SimThen(w, f, t, t.ip + n, t.rs, t.ip + n + 1, rs, r, r');
  }

  lemma {:induction false} FramedEval(words: Words, defs: seq<Def>, entry: seq<int>, f: nat, k: nat, b: Stmt, x: Data,
                                      loops: seq<Loop>)
    ensures var e := words.enter(k, x); var r' := Eval(words, defs, entry, f, Framed(k, b), x, loops);
            && (e.None? ==> r' == Wrong)
            && (e.Some? ==>
                  var r := Eval(words, defs, entry, f, b, e.val.0, []);
                  && (!r.Done? ==> r' == NotLeft(r))
                  && (r.Done? ==> r' == var l := words.leave(k, r.x, e.val.1); if l.Some? then Done(l.val) else Wrong))
  {}

  lemma {:induction false} FramedStays(words: Words, defs: seq<Def>, entry: seq<int>, f: nat, k: nat, b: Stmt, x: Data,
                                       loops: seq<Loop>)
    ensures !Eval(words, defs, entry, f, Framed(k, b), x, loops).Left?
  {}

  lemma {:induction false} EnterStep(w: Image, s: State, k: nat, t: State)
    requires CellsAt(w.mem, s.ip, [Enter(k)]) && Inv(s) && w.words.enter(k, s.x).Some?
    requires var e := w.words.enter(k, s.x).val; t == State(s.ip + 1, e.0, [e.1] + s.rs, s.ep, s.live)
    ensures Reaches(w, s, t) && Inv(t) && Above(t, s) && Chain(s.rs, t.ep, t.live) && t.rs[1..] == s.rs
  {
    CellAt(w.mem, s.ip, [Enter(k)], 0);
    ChainPush(t.rs[..1], s.rs, s.ep, s.live);
    assert t.rs[..1] + s.rs == t.rs;
    ReachOne(w, s, t);
  }

  lemma {:induction false} LeaveStep(w: Image, k: nat, s: State, t: State)
    requires CellsAt(w.mem, s.ip, [Leave(k)]) && s.rs != []
    requires w.words.leave(k, s.x, s.rs[0]) == Some(t.x) && t == Later(s, s.ip + 1, t.x, s.rs[1..])
    ensures Step(w, s) == Some(t)
  {
    CellAt(w.mem, s.ip, [Leave(k)], 0);
  }

  lemma {:induction false} Conditional(w: Image, s: State, off: int) returns (t: State)
    requires CellsAt(w.mem, s.ip, [QBranchTok, Off(off)]) && Spop(s.x).Some? && Inv(s)
    ensures t.ip == (if s.x.tos != 0 then s.ip + 2 else s.ip + 1 + off)
    ensures t.x == Spop(s.x).val && t.rs == s.rs && t.ep == s.ep && t.live == s.live && Step(w, s) == Some(t)
    ensures Reaches(w, s, t) && Inv(t) && Above(t, s)
  {
    CellAt(w.mem, s.ip, [QBranchTok, Off(off)], 0);
    CellAt(w.mem, s.ip, [QBranchTok, Off(off)], 1);
    t := Later(s, if s.x.tos != 0 then s.ip + 2 else s.ip + 1 + off, Spop(s.x).val, s.rs);
    assert Step(w, s) == Some(t);
    hide Step;
    ReachOne(w, s, t);
  }

  lemma {:induction false} Branches(w: Image, s: State, off: int)
    requires CellsAt(w.mem, s.ip, [BranchTok, Off(off)])
    ensures Step(w, s) == Some(Later(s, s.ip + 1 + off, s.x, s.rs))
  {
    CellAt(w.mem, s.ip, [BranchTok, Off(off)], 0);
    CellAt(w.mem, s.ip, [BranchTok, Off(off)], 1);
  }

  lemma {:induction false} SimIfElse(w: Image, defs: seq<Def>, f: nat, t: Stmt, e: Stmt, s: State, loops: seq<Loop>)
    requires Loaded(w, defs) && CellsAt(w.mem, s.ip, Emit(IfElse(t, e))) && Inv(s) &&
             Open(w.mem, s.rs, s.ep, s.live, loops)
    ensures Simulates(w, f, s, s.ip + |Emit(IfElse(t, e))|, s.rs,
                      Eval(w.words, defs, w.entry, f, IfElse(t, e), s.x, loops))
    decreases f, IfElse(t, e), 1
  {
    hide *;
    IfElseCells(w, t, e, s.ip);
    EvalIfElse(w, defs, f, t, e, s.x, loops);
    var end := s.ip + |Emit(t)| + |Emit(e)| + 4;
    if Spop(s.x).None? {
      AtOnce(w, f, s, end, s.rs, Wrong);
    } else {
      var s' := Conditional(w, s, |Emit(t)| + 3);
      var c := if s.x.tos != 0 then t else e;
      Simulation(w, defs, f, c, s', loops);
      var r := Eval(w.words, defs, w.entry, f, c, s'.x, loops);
      if s.x.tos != 0 { ThenBranches(w, f, s', s'.ip + |Emit(t)|, |Emit(e)| + 1, r); }
      SimAfter(w, f, s, s', end, s.rs, r);
    }
  }

  lemma {:induction false} EvalIfElse(w: Image, defs: seq<Def>, f: nat, t: Stmt, e: Stmt, x: Data, loops: seq<Loop>)
    ensures Eval(w.words, defs, w.entry, f, IfElse(t, e), x, loops) ==
            if Spop(x).None? then Wrong
            else Eval(w.words, defs, w.entry, f, if x.tos != 0 then t else e, Spop(x).val, loops)
  {}

  lemma {:induction false} IfElseCells(w: Image, t: Stmt, e: Stmt, a: int)
    requires CellsAt(w.mem, a, Emit(IfElse(t, e)))
    ensures |Emit(IfElse(t, e))| == |Emit(t)| + |Emit(e)| + 4
    ensures CellsAt(w.mem, a, [QBranchTok, Off(|Emit(t)| + 3)])
    ensures CellsAt(w.mem, a + 2, Emit(t)) && CellsAt(w.mem, a + 4 + |Emit(t)|, Emit(e))
    ensures CellsAt(w.mem, a + 2 + |Emit(t)|, [BranchTok, Off(|Emit(e)| + 1)])
  {
    hide *;
    var x, y := Emit(t), Emit(e);
    EmitIfElse(t, e);
    CellsSplit4(w.mem, a, [QBranchTok, Off(|x| + 3)], x, [BranchTok, Off(|y| + 1)], y);
  }

  lemma {:induction false} EmitIfElse(t: Stmt, e: Stmt)
    ensures Emit(IfElse(t, e)) ==
            [QBranchTok, Off(|Emit(t)| + 3)] + Emit(t) + [BranchTok, Off(|Emit(e)| + 1)] + Emit(e)
  {}

  lemma {:induction false} CellsSplit4(mem: seq<Cell>, a: int, h: seq<Cell>, x: seq<Cell>, j: seq<Cell>, y: seq<Cell>)
    requires CellsAt(mem, a, h + x + j + y)
    ensures CellsAt(mem, a, h) && CellsAt(mem, a + |h|, x)
    ensures CellsAt(mem, a + |h| + |x|, j) && CellsAt(mem, a + |h| + |x| + |j|, y)
  {
    hide *;
    CellsSplit(mem, a, h + x + j, y);
    CellsSplit(mem, a, h + x, j);
    CellsSplit(mem, a, h, x);
  }

  /** A part that ends with a `(branch)` over what follows. */
  lemma {:induction false} ThenBranches(w: Image, f: nat, s: State, mid: int, off: int, r: Res)
    requires Simulates(w, f, s, mid, s.rs, r) && CellsAt(w.mem, mid, [BranchTok, Off(off)]) && Inv(s)
    ensures Simulates(w, f, s, mid + 1 + off, s.rs, r)
  {
    hide Step, Simulates;
    if r.Done? { Branches(w, Later(s, mid, r.x, s.rs), off); }
    SimThen(w, f, s, mid, s.rs, mid + 1 + off, s.rs, r, r);
  }

  /** As `Paid`, the step being taken from `m`. */
  lemma {:induction false} PaidAfter(w: Image, f: nat, s: State, m: State, t: State, ip: int, rs: seq<int>, r: Res)
    requires Reaches(w, s, m) && Step(w, m) == Some(t) && Inv(t) && f > 0
    requires Simulates(w, f - 1, t, ip, rs, r) && Above(t, s) && (r.Left? ==> t.rs == s.rs)
    ensures Simulates(w, f, s, ip, rs, r)
  {
    hide Step, Inv;
    ReachedInv(w, s, m);
    if r.Timeout? {
      assert Runs(w, f, m);
      RunsAfter(w, f, s, m);
    } else {
      hide Reaches, Runs;
      ReachOne(w, m, t);
      ReachTrans(w, s, m, t);
      SimAfter(w, f - 1, s, t, ip, rs, r);
    }
  }

  lemma {:induction false} EvalUntil(w: Image, defs: seq<Def>, f: nat, b: Stmt, x: Data, loops: seq<Loop>)
    ensures Eval(w.words, defs, w.entry, f, Until(b), x, loops) ==
            (var r := Eval(w.words, defs, w.entry, f, b, x, loops);
             if !r.Done? then r
             else if Spop(r.x).None? then Wrong
             else if r.x.tos != 0 then Done(Spop(r.x).val)
             else if f == 0 then Timeout
             else Eval(w.words, defs, w.entry, f - 1, Until(b), Spop(r.x).val, loops))
  {}

  lemma {:induction false} UntilCells(w: Image, b: Stmt, a: int)
    requires CellsAt(w.mem, a, Emit(Until(b)))
    ensures |Emit(Until(b))| == |Emit(b)| + 2
    ensures CellsAt(w.mem, a, Emit(b)) && CellsAt(w.mem, a + |Emit(b)|, [QBranchTok, Off(-(|Emit(b)| + 1))])
  {
    hide *;
    EmitUntil(b);
    CellsSplit(w.mem, a, Emit(b), [QBranchTok, Off(-(|Emit(b)| + 1))]);
  }

  lemma {:induction false} EmitUntil(b: Stmt)
    ensures Emit(Until(b)) == Emit(b) + [QBranchTok, Off(-(|Emit(b)| + 1))]
  {}

  lemma {:induction false} SimUntil(w: Image, defs: seq<Def>, f: nat, b: Stmt, s: State, loops: seq<Loop>)
    requires Loaded(w, defs) && CellsAt(w.mem, s.ip, Emit(Until(b))) && Inv(s) && Open(w.mem, s.rs, s.ep, s.live, loops)
    ensures Simulates(w, f, s, s.ip + |Emit(Until(b))|, s.rs, Eval(w.words, defs, w.entry, f, Until(b), s.x, loops))
    decreases f, Until(b), 1
  {
    hide *;
    UntilCells(w, b, s.ip);
    EvalUntil(w, defs, f, b, s.x, loops);
    var mid, end := s.ip + |Emit(b)|, s.ip + |Emit(b)| + 2;
    Simulation(w, defs, f, b, s, loops);
    var r := Eval(w.words, defs, w.entry, f, b, s.x, loops);
    if !r.Done? {
      NotDone(w, f, s, mid, end, s.rs, s.rs, r);
    } else {
      ItEnded(w, f, s, mid, s.rs, r);
      var m := Later(s, mid, r.x, s.rs);
      LaterIs(s, mid, r.x, s.rs);
      if Spop(r.x).None? {
        AtOnce(w, f, s, end, s.rs, Wrong);
      } else {
        ReachedInv(w, s, m);
        var t := Conditional(w, m, -(|Emit(b)| + 1));
        AboveSame(m, t, s);
        if r.x.tos != 0 {
          ReachTrans(w, s, m, t);
          EndsAt(w, f, s, t, end);
        } else if f == 0 {
          AtOnce(w, f, s, end, s.rs, Timeout);
        } else {
          Simulation(w, defs, f - 1, Until(b), t, loops);
          PaidAfter(w, f, s, m, t, end, s.rs, Eval(w.words, defs, w.entry, f - 1, Until(b), t.x, loops));
        }
      }
    }
  }

  lemma {:induction false} LaterIs(s: State, ip: int, x: Data, rs: seq<int>)
    ensures var t := Later(s, ip, x, rs); t.ip == ip && t.x == x && t.rs == rs && t.ep == s.ep && t.live == s.live
  {}

  lemma {:induction false} AboveSame(m: State, t: State, s: State)
    requires m.rs == s.rs == t.rs && m.ep == s.ep == t.ep && m.live == s.live == t.live
    ensures Above(t, s) && Above(m, s)
  {}

  lemma {:induction false} NotDone(w: Image, f: nat, s: State, mid: int, end: int, midRs: seq<int>, rs: seq<int>,
                                   r: Res)
    requires Simulates(w, f, s, mid, midRs, r) && !r.Done?
    ensures Simulates(w, f, s, end, rs, r)
  {}

  lemma {:induction false} ItEnded(w: Image, f: nat, s: State, mid: int, rs: seq<int>, r: Res)
    requires Simulates(w, f, s, mid, rs, r) && r.Done?
    ensures Reaches(w, s, Later(s, mid, r.x, rs))
  {}

  lemma {:induction false} EndsAt(w: Image, f: nat, s: State, t: State, end: int)
    requires Reaches(w, s, t) && t.ip == end && t.rs == s.rs && t.ep == s.ep && t.live == s.live
    ensures Simulates(w, f, s, end, s.rs, Done(t.x))
  {
    assert t == Later(s, end, t.x, s.rs);
  }

  // ----- counted loops -----

  /** What a loop entered from `s` does from `t`, where its frame is on the return stack. */
  ghost predicate Turns(w: Image, f: nat, s: State, t: State, end: int, r: Res) {
    match r
    case Done(x) => Reaches(w, t, Later(s, end, x, s.rs))
    case Left(_) => false
    case Raised(signal, x) => exists u :: Reaches(w, t, u) && Raises(w, u, signal, x) && Above(u, s)
    case Timeout => Runs(w, f, t)
    case Wrong => true
  }

  /** The frame of a counted loop over the return stack of `s`. */
  function InLoop(s: State, ip: int, x: Data, l: Loop, at: int): State {
    State(ip, x, [l.limit, l.index, at] + s.rs, s.ep, s.live)
  }

  lemma {:induction false} InLoopIs(w: Image, s: State, ip: int, x: Data, l: Loop, at: int, loops: seq<Loop>)
    requires Inv(s) && Open(w.mem, s.rs, s.ep, s.live, loops) && Landing(w.mem, at).Some?
    ensures var t := InLoop(s, ip, x, l, at);
            && Inv(t) && Above(t, s) && |t.rs| >= 3 && t.rs[3..] == s.rs && t.rs[2] == at && t.ip == ip && t.x == x
            && Open(w.mem, t.rs, t.ep, t.live, [l] + loops)
  {
    ChainPush([l.limit, l.index, at], s.rs, s.ep, s.live);
    var t := InLoop(s, ip, x, l, at);
    assert t.rs[|t.rs| - |s.rs|..] == s.rs && ([l] + loops)[1..] == loops && t.rs[3..] == s.rs;
  }

  lemma {:induction false} DoCells(w: Image, b: Stmt, plus: bool, a: int)
    requires CellsAt(w.mem, a, Emit(Do(b, plus)))
    ensures |Emit(Do(b, plus))| == |Emit(b)| + 4
    ensures CellsAt(w.mem, a, [DoTok, Off(|Emit(b)| + 3)]) && CellsAt(w.mem, a + 2, Emit(b))
    ensures CellsAt(w.mem, a + 2 + |Emit(b)|, [if plus then PlusLoopTok else LoopTok, Off(-(|Emit(b)| + 1))])
  {
    hide *;
    var x, y := [DoTok, Off(|Emit(b)| + 3)], [if plus then PlusLoopTok else LoopTok, Off(-(|Emit(b)| + 1))];
    EmitDo(b, plus);
    BracketSplit(w.mem, a, x, Emit(b), y);
  }

  lemma {:induction false} EmitDo(b: Stmt, plus: bool)
    ensures Emit(Do(b, plus)) == [DoTok, Off(|Emit(b)| + 3)] + Emit(b) +
                                 [if plus then PlusLoopTok else LoopTok, Off(-(|Emit(b)| + 1))]
  {}

  lemma {:induction false} BracketSplit(mem: seq<Cell>, a: int, x: seq<Cell>, b: seq<Cell>, y: seq<Cell>)
    requires CellsAt(mem, a, x + b + y)
    ensures CellsAt(mem, a, x) && CellsAt(mem, a + |x|, b) && CellsAt(mem, a + |x| + |b|, y)
  {
    hide CellsAt;
    CellsSplit(mem, a, x + b, y);
    CellsSplit(mem, a, x, b);
  }

  lemma {:induction false} DoStep(w: Image, s: State, off: int)
    requires CellsAt(w.mem, s.ip, [DoTok, Off(off)]) && TwoCells(s.x).Some?
    ensures var l := TwoCells(s.x).val; Step(w, s) == Some(InLoop(s, s.ip + 2, l.2, Loop(l.0, l.1), s.ip + 1))
    ensures Landing(w.mem, s.ip + 1) == Some(s.ip + 1 + off)
  {
    CellAt(w.mem, s.ip, [DoTok, Off(off)], 0);
    CellAt(w.mem, s.ip, [DoTok, Off(off)], 1);
  }

  /** `(loop)` and `(+loop)`: the index moves on in its cell, or the three cells go. */
  lemma {:induction false} LoopStep(w: Image, s: State, plus: bool, a: int, off: int, x: Data, l: Loop, at: int)
    requires CellsAt(w.mem, a, [if plus then PlusLoopTok else LoopTok, Off(off)]) && Turn(plus, x, l).Some?
    ensures var t := Turn(plus, x, l).val;
            Step(w, InLoop(s, a, x, l, at)) ==
            Some(if t.2 then InLoop(s, a + 1 + off, t.0, t.1, at) else Later(s, a + 2, t.0, s.rs))
  {
    CellAt(w.mem, a, [if plus then PlusLoopTok else LoopTok, Off(off)], 0);
    CellAt(w.mem, a, [if plus then PlusLoopTok else LoopTok, Off(off)], 1);
    var rs, index := [l.limit, l.index, at] + s.rs, Turn(plus, x, l).val.1.index;
    assert rs[3..] == s.rs && rs[1 := index] == [l.limit, index, at] + s.rs;
  }

  lemma {:induction false} EvalLoopIs(w: Image, defs: seq<Def>, f: nat, b: Stmt, plus: bool, l: Loop, x: Data,
                                      loops: seq<Loop>)
    ensures EvalLoop(w.words, defs, w.entry, f, b, plus, l, x, loops) ==
            var r := Eval(w.words, defs, w.entry, f, b, x, [l] + loops);
            if r.Left? then Done(r.x)
            else if !r.Done? then r
            else
              var t := Turn(plus, r.x, l);
              if t.None? then Wrong
              else if !t.val.2 then Done(t.val.0)
              else if f == 0 then Timeout
              else EvalLoop(w.words, defs, w.entry, f - 1, b, plus, t.val.1, t.val.0, loops)
  {}

  /** A counted loop from the start of its body at `a`. A raise in any turn leaves the loop's
      cells on the return stack, above that of `s`; `leave` takes them off. */
  lemma {:induction false} SimTurns(w: Image, defs: seq<Def>, f: nat, b: Stmt, plus: bool, s: State, a: int, x: Data,
                                    l: Loop, at: int, loops: seq<Loop>)
    requires Loaded(w, defs) && CellsAt(w.mem, a, Emit(b)) && Inv(s) && Open(w.mem, s.rs, s.ep, s.live, loops)
    requires CellsAt(w.mem, a + |Emit(b)|, [if plus then PlusLoopTok else LoopTok, Off(-(|Emit(b)| + 1))])
    requires Landing(w.mem, at) == Some(a + |Emit(b)| + 2)
    ensures Turns(w, f, s, InLoop(s, a, x, l, at), a + |Emit(b)| + 2,
                  EvalLoop(w.words, defs, w.entry, f, b, plus, l, x, loops))
    decreases f, b, 3
  {
    hide *;
    var t := InLoop(s, a, x, l, at);
    var mid, end := a + |Emit(b)|, a + |Emit(b)| + 2;
    InLoopIs(w, s, a, x, l, at, loops);
    EvalLoopIs(w, defs, f, b, plus, l, x, loops);
    Simulation(w, defs, f, b, t, [l] + loops);
    var r := Eval(w.words, defs, w.entry, f, b, x, [l] + loops);
    if r.Left? {
      TurnLeft(w, f, s, t, mid, end, r);
    } else if !r.Done? {
      TurnStops(w, f, s, t, mid, end, r);
    } else if Turn(plus, r.x, l).None? {
      TurnsWrong(w, f, s, t, end);
    } else {
      var n := Turn(plus, r.x, l).val;
      ItEnded(w, f, t, mid, t.rs, r);
      var m := InLoop(s, mid, r.x, l, at);
      SameFrame(s, a, x, mid, r.x, l, at);
      LoopStep(w, s, plus, mid, -(|Emit(b)| + 1), r.x, l, at);
      ReachedInv(w, t, m);
      if !n.2 {
        LoopLeft(w, f, s, t, m, end, n.0);
      } else if f == 0 {
        TurnsAtOnce(w, s, t, end);
      } else {
        var t' := InLoop(s, a, n.0, n.1, at);
        InLoopIs(w, s, a, n.0, n.1, at, loops);
        SimTurns(w, defs, f - 1, b, plus, s, a, n.0, n.1, at, loops);
        TurnPaid(w, f, s, t, m, t', end, EvalLoop(w.words, defs, w.entry, f - 1, b, plus, n.1, n.0, loops));
      }
    }
  }

  lemma {:induction false} SameFrame(s: State, a: int, x: Data, mid: int, y: Data, l: Loop, at: int)
    ensures var t := InLoop(s, a, x, l, at); Later(t, mid, y, t.rs) == InLoop(s, mid, y, l, at)
  {}

  lemma {:induction false} TurnLeft(w: Image, f: nat, s: State, t: State, mid: int, end: int, r: Res)
    requires Simulates(w, f, t, mid, t.rs, r) && r.Left? && Above(t, s)
    requires |t.rs| >= 3 && t.rs[3..] == s.rs && Landing(w.mem, t.rs[2]) == Some(end)
    ensures Turns(w, f, s, t, end, Done(r.x))
  {
    hide Reaches;
  }

  lemma {:induction false} TurnsWrong(w: Image, f: nat, s: State, t: State, end: int)
    ensures Turns(w, f, s, t, end, Wrong)
  {}

  lemma {:induction false} TurnStops(w: Image, f: nat, s: State, t: State, mid: int, end: int, r: Res)
    requires Simulates(w, f, t, mid, t.rs, r) && !r.Done? && !r.Left? && Above(t, s)
    ensures Turns(w, f, s, t, end, r)
  {
    hide Reaches, Runs, Raises;
    if r.Raised? {
      var u :| AtRaise(w, t, u, r.signal, r.x);
      assert u.rs[|u.rs| - |s.rs|..] == u.rs[|u.rs| - |t.rs|..][|t.rs| - |s.rs|..];
    }
  }

  lemma {:induction false} LoopLeft(w: Image, f: nat, s: State, t: State, m: State, end: int, x: Data)
    requires Reaches(w, t, m) && Step(w, m) == Some(Later(s, end, x, s.rs)) && Inv(s)
    ensures Turns(w, f, s, t, end, Done(x))
  {
    hide Step, Reaches;
    ReachedInv(w, t, m);
    ReachOne(w, m, Later(s, end, x, s.rs));
    ReachTrans(w, t, m, Later(s, end, x, s.rs));
  }

  lemma {:induction false} TurnsAtOnce(w: Image, s: State, t: State, end: int)
    requires Inv(t)
    ensures Turns(w, 0, s, t, end, Timeout)
  {}

  lemma {:induction false} TurnPaid(w: Image, f: nat, s: State, t: State, m: State, t': State, end: int, r: Res)
    requires Reaches(w, t, m) && Step(w, m) == Some(t') && Inv(m) && Inv(t') && f > 0 && Turns(w, f - 1, s, t', end, r)
    ensures Turns(w, f, s, t, end, r)
  {
    hide Step, Inv, Raises, Above;
    match r
    case Done(x) =>
      hide Reaches;
      ReachStep(w, m, t', Later(s, end, x, s.rs));
      ReachTrans(w, t, m, Later(s, end, x, s.rs));
    case Raised(signal, x) =>
      hide Reaches;
      var u :| Reaches(w, t', u) && Raises(w, u, signal, x) && Above(u, s);
      ReachStep(w, m, t', u);
      ReachTrans(w, t, m, u);
    case Timeout =>
      assert Runs(w, f, m);
      RunsAfter(w, f, t, m);
    case Wrong =>
  }

  lemma {:induction false} SimDo(w: Image, defs: seq<Def>, f: nat, b: Stmt, plus: bool, s: State, loops: seq<Loop>)
    requires Loaded(w, defs) && CellsAt(w.mem, s.ip, Emit(Do(b, plus))) && Inv(s) &&
             Open(w.mem, s.rs, s.ep, s.live, loops)
    ensures Simulates(w, f, s, s.ip + |Emit(Do(b, plus))|, s.rs,
                      Eval(w.words, defs, w.entry, f, Do(b, plus), s.x, loops))
    decreases f, Do(b, plus), 1
  {
    hide *;
    DoCells(w, b, plus, s.ip);
    EvalDo(w, defs, f, b, plus, s.x, loops);
    var end := s.ip + |Emit(b)| + 4;
    if TwoCells(s.x).None? {
      AtOnce(w, f, s, end, s.rs, Wrong);
    } else {
      var c := TwoCells(s.x).val;
      var l := Loop(c.0, c.1);
      DoStep(w, s, |Emit(b)| + 3);
      var t := InLoop(s, s.ip + 2, c.2, l, s.ip + 1);
      InLoopIs(w, s, s.ip + 2, c.2, l, s.ip + 1, loops);
      ReachOne(w, s, t);
      SimTurns(w, defs, f, b, plus, s, s.ip + 2, c.2, l, s.ip + 1, loops);
      TurnsSimulate(w, f, s, t, end, EvalLoop(w.words, defs, w.entry, f, b, plus, l, c.2, loops));
    }
  }

  lemma {:induction false} EvalDo(w: Image, defs: seq<Def>, f: nat, b: Stmt, plus: bool, x: Data, loops: seq<Loop>)
    ensures var l := TwoCells(x);
            Eval(w.words, defs, w.entry, f, Do(b, plus), x, loops) ==
            if l.None? then Wrong
            else EvalLoop(w.words, defs, w.entry, f, b, plus, Loop(l.val.0, l.val.1), l.val.2, loops)
  {}

  lemma {:induction false} TurnsSimulate(w: Image, f: nat, s: State, t: State, end: int, r: Res)
    requires Reaches(w, s, t) && Turns(w, f, s, t, end, r)
    ensures Simulates(w, f, s, end, s.rs, r)
  {
    hide Reaches, Runs, Raises, Above;
    match r
    case Done(x) => ReachTrans(w, s, t, Later(s, end, x, s.rs));
    case Raised(signal, x) =>
      var u :| Reaches(w, t, u) && Raises(w, u, signal, x) && Above(u, s);
      ReachTrans(w, s, t, u);
      assert AtRaise(w, s, u, signal, x);
    case Timeout => RunsAfter(w, f, s, t);
    case Wrong =>
  }

  // ----- calls -----

  lemma {:induction false} SimCall(w: Image, defs: seq<Def>, f: nat, d: nat, s: State, loops: seq<Loop>)
    requires Loaded(w, defs) && CellsAt(w.mem, s.ip, [CallTo(d)]) && Inv(s)
    ensures Simulates(w, f, s, s.ip + 1, s.rs, Eval(w.words, defs, w.entry, f, Call(d), s.x, loops))
    decreases f, Call(d), 1
  {
    hide Simulates, Step, Emit, Loaded, CellsAt, Inv, Above;
    if d >= |defs| {
      AtOnce(w, f, s, s.ip + 1, s.rs, Wrong);
    } else {
      EntryPerDef(w, defs);
      if f == 0 {
        AtOnce(w, f, s, s.ip + 1, s.rs, Timeout);
      } else if defs[d].Guarded? && Guard(s.x, w.entry[d]).None? {
        AtOnce(w, f, s, s.ip + 1, s.rs, Wrong);
      } else {
        var t := CallStep(w, defs, d, s);
        hide Spush, Spop, Guard, EvalDef;
        if defs[d].Unguarded? {
          SimUnguarded(w, defs, f - 1, d, t);
        } else {
          SimGuarded(w, defs, f - 1, d, s.x, t);
        }
        Paid(w, f, s, t, s.ip + 1, s.rs, EvalDef(w.words, defs, w.entry, f - 1, d, s.x));
      }
    }
  }

  lemma {:induction false} EntryPerDef(w: Image, defs: seq<Def>)
    requires Loaded(w, defs)
    ensures |w.entry| == |defs| == |w.code|
  {}

  /** The thread of a call: an unguarded word at its body, a guarded one at its code field. */
  lemma {:induction false} CallStep(w: Image, defs: seq<Def>, d: nat, s: State) returns (t: State)
    requires Loaded(w, defs) && CellsAt(w.mem, s.ip, [CallTo(d)]) && d < |defs| && Inv(s)
    requires defs[d].Guarded? ==> Guard(s.x, w.entry[d]).Some?
    ensures Step(w, s) == Some(t) && Inv(t) && Above(t, s)
    ensures t.rs == [s.ip + 1] + s.rs && t.rs[1..] == s.rs && Chain(s.rs, t.ep, t.live)
    ensures defs[d].Unguarded? ==> t.ip == w.entry[d] && t.x == s.x
    ensures defs[d].Guarded? ==>
              w.code[d] == Some(t.ip) && Spush(s.x, w.entry[d]) == Some(t.x) && Spop(t.x) == Guard(s.x, w.entry[d])
  {
    hide Layout;
    CellAt(w.mem, s.ip, [CallTo(d)], 0);
    t := Step(w, s).val;
    hide Step;
    ChainPush([s.ip + 1], s.rs, s.ep, s.live);
  }

  lemma {:induction false} SimUnguarded(w: Image, defs: seq<Def>, f: nat, d: nat, s: State)
    requires Loaded(w, defs) && d < |defs| && defs[d].Unguarded? && s.ip == w.entry[d] && Inv(s)
    requires s.rs != [] && Chain(s.rs[1..], s.ep, s.live)
    ensures Simulates(w, f, s, s.rs[0], s.rs[1..], EvalDef(w.words, defs, w.entry, f, d, s.x))
    decreases f, defs[d], 3
  {
    hide *;
    var b := defs[d].body;
    UnguardedIs(w, defs, f, d, s.x);
    OpenNothing(w.mem, s);
    Simulation(w, defs, f, b, s, []);
    var r := Eval(w.words, defs, w.entry, f, b, s.x, []);
    NoLeft(w, f, s, s.ip + |Emit(b)|, s.rs, r);
    Returns(w, f, s, s.ip + |Emit(b)|, NotLeft(r));
  }

  lemma {:induction false} NoLeft(w: Image, f: nat, s: State, ip: int, rs: seq<int>, r: Res)
    requires Simulates(w, f, s, ip, rs, r)
    ensures Simulates(w, f, s, ip, rs, NotLeft(r)) && !NotLeft(r).Left? && (NotLeft(r).Raised? <==> r.Raised?)
  {}

  lemma {:induction false} OpenNothing(mem: seq<Cell>, s: State)
    requires Inv(s)
    ensures Open(mem, s.rs, s.ep, s.live, [])
  {}

  lemma {:induction false} UnguardedIs(w: Image, defs: seq<Def>, f: nat, d: nat, x: Data)
    requires Loaded(w, defs) && d < |defs| && defs[d].Unguarded?
    ensures d < |w.entry|
    ensures var b := defs[d].body;
            && CellsAt(w.mem, w.entry[d], Emit(b)) && CellsAt(w.mem, w.entry[d] + |Emit(b)|, [SemiTok])
            && EvalDef(w.words, defs, w.entry, f, d, x) == NotLeft(Eval(w.words, defs, w.entry, f, b, x, []))
  {
    CellsSplit(w.mem, w.entry[d], Emit(defs[d].body), [SemiTok]);
  }

  /** A part that ends with `(;)`. */
  lemma {:induction false} Returns(w: Image, f: nat, s: State, mid: int, r: Res)
    requires Simulates(w, f, s, mid, s.rs, r) && CellsAt(w.mem, mid, [SemiTok])
    requires s.rs != [] && Chain(s.rs[1..], s.ep, s.live) && !r.Left?
    ensures Simulates(w, f, s, s.rs[0], s.rs[1..], r)
  {
    hide Simulates, Chain;
    CellAt(w.mem, mid, [SemiTok], 0);
    SimThen(w, f, s, mid, s.rs, s.rs[0], s.rs[1..], r, r);
  }

  /** A protected call from its `(exception>)`: `before` is the data at the call, `s` has the
      body address pushed and the return address on the return stack. */
  lemma {:induction false} SimGuarded(w: Image, defs: seq<Def>, f: nat, d: nat, before: Data, s: State)
    requires Loaded(w, defs) && d < |defs| && defs[d].Guarded? && Inv(s)
    requires w.code[d] == Some(s.ip) && Spush(before, w.entry[d]) == Some(s.x)
    requires Guard(before, w.entry[d]).Some? && Spop(s.x) == Guard(before, w.entry[d])
    requires s.rs != [] && Chain(s.rs[1..], s.ep, s.live)
    ensures Simulates(w, f, s, s.rs[0], s.rs[1..], EvalDef(w.words, defs, w.entry, f, d, before))
    decreases f, defs[d], 3
  {
    hide *;
    var b, h := defs[d].body, defs[d].handler;
    GuardedCells(w, defs, d);
    var a := w.entry[d];
    var at := Guard(before, a).val;
    TopIsBody(before, a);
    EvalGuarded(w, defs, f, d, before);
    var t := EnterGuarded(w, a, s);
    OpenNothing(w.mem, t);
    Simulation(w, defs, f, b, t, []);
    var r := Eval(w.words, defs, w.entry, f, b, at, []);
    if r.Raised? {
      IsRaised(w, f, t, a + |Emit(b)|, t.rs, r);
      if Resumed(at, r.x, r.signal).None? {
        AtOnce(w, f, s, s.rs[0], s.rs[1..], Wrong);
      } else {
        var v := ToHandler(w, s, at, a, t, r.signal, r.x);
        OpenNothing(w.mem, v);
        Simulation(w, defs, f, h, v, []);
        var q := Eval(w.words, defs, w.entry, f, h, v.x, []);
        NoLeft(w, f, v, v.ip + |Emit(h)|, v.rs, q);
        HandlerReturns(w, f, s, v, v.ip + |Emit(h)|, NotLeft(q));
      }
    } else {
      NoLeft(w, f, t, a + |Emit(b)|, t.rs, r);
      BodyEnds(w, f, s, at, a, t, a + |Emit(b)|, NotLeft(r));
    }
  }

  lemma {:induction false} TopIsBody(before: Data, a: int)
    requires Spush(before, a).Some?
    ensures Spush(before, a).val.tos == a
  {}

  lemma {:induction false} IsRaised(w: Image, f: nat, s: State, ip: int, rs: seq<int>, r: Res)
    requires r.Raised? && Simulates(w, f, s, ip, rs, r)
    ensures exists u :: AtRaise(w, s, u, r.signal, r.x)
  {}

  /** A protected call, in source terms. */
  lemma {:induction false} EvalGuarded(w: Image, defs: seq<Def>, f: nat, d: nat, before: Data)
    requires d < |defs| && d < |w.entry| && defs[d].Guarded? && Guard(before, w.entry[d]).Some?
    ensures var at := Guard(before, w.entry[d]).val;
            var r := Eval(w.words, defs, w.entry, f, defs[d].body, at, []);
            EvalDef(w.words, defs, w.entry, f, d, before) ==
            if !r.Raised? then NotLeft(r)
            else
              var h := Resumed(at, r.x, r.signal);
              if h.Some? then NotLeft(Eval(w.words, defs, w.entry, f, defs[d].handler, h.val, [])) else Wrong
  {}

  /** From a protected call whose body raises to its handler. */
  lemma {:induction false} ToHandler(w: Image, s: State, at: Data, a: int, t: State, signal: int, x: Data)
    returns (v: State)
    requires Reaches(w, s, t) && t == Catch(s, at, a) && Inv(s)
    requires exists u :: AtRaise(w, t, u, signal, x)
    requires Resumed(at, x, signal).Some?
    ensures v.ip == s.ip + 1 && v.x == Resumed(at, x, signal).val && v.rs == s.rs && v.ep == s.ep && v.live == s.live
    ensures Reaches(w, s, v) && Inv(v)
  {
    hide Resumed, Catch, Inv, Chain, Step, Reaches;
    var u :| AtRaise(w, t, u, signal, x);
    v := Later(s, s.ip + 1, Resumed(at, x, signal).val, s.rs);
    RaiseResumes(w, s, at, a, u, signal, x, v);
    ReachTrans(w, s, t, u);
    ReachTrans(w, s, u, v);
    ReachedInv(w, u, v);
  }

  /** The handler runs on the caller's return stack and ends with `(;)`. */
  lemma {:induction false} HandlerReturns(w: Image, f: nat, s: State, v: State, mid: int, r: Res)
    requires Reaches(w, s, v) && v.rs == s.rs && v.ep == s.ep && v.live == s.live
    requires Simulates(w, f, v, mid, v.rs, r) && CellsAt(w.mem, mid, [SemiTok]) && !r.Left?
    requires s.rs != [] && Chain(s.rs[1..], s.ep, s.live)
    ensures Simulates(w, f, s, s.rs[0], s.rs[1..], r)
  {
    hide Simulates, Reaches, CellsAt, Chain;
    Returns(w, f, v, mid, r);
    assert v.rs[|v.rs| - |s.rs|..] == s.rs;
    SimAfter(w, f, s, v, s.rs[0], s.rs[1..], r);
  }

  /** The body of a protected call ends normally, or never. */
  lemma {:induction false} BodyEnds(w: Image, f: nat, s: State, at: Data, a: int, t: State, mid: int, r: Res)
    requires Reaches(w, s, t) && t == Catch(s, at, a) && Inv(t) && !r.Raised? && !r.Left?
    requires Simulates(w, f, t, mid, t.rs, r) && CellsAt(w.mem, mid, [ThrowTok])
    requires s.rs != [] && Chain(s.rs[1..], s.ep, s.live)
    ensures Simulates(w, f, s, s.rs[0], s.rs[1..], r)
  {
    hide Reaches, Runs, CellsAt, Chain, Inv, Step, Catch;
    if r.Done? {
      var m, e := Later(t, mid, r.x, t.rs), Later(s, s.rs[0], r.x, s.rs[1..]);
      ThrowUnlinks(w, s, at, a, m, e);
      ReachedInv(w, t, m);
      ReachOne(w, m, e);
      ReachTrans(w, s, t, m);
      ReachTrans(w, s, m, e);
    } else if r.Timeout? {
      RunsAfter(w, f, s, t);
    }
  }

  lemma {:induction false} GuardedCells(w: Image, defs: seq<Def>, d: nat)
    requires Loaded(w, defs) && d < |defs| && defs[d].Guarded?
    ensures |w.entry| == |defs| == |w.code|
    ensures var a, n, m := w.entry[d], |Emit(defs[d].body)|, |Emit(defs[d].handler)|;
            && CellsAt(w.mem, a, Emit(defs[d].body)) && CellsAt(w.mem, a + n, [ThrowTok])
            && w.code[d] == Some(a + n + 1) && CellsAt(w.mem, a + n + 1, [CatchTok])
            && CellsAt(w.mem, a + n + 2, Emit(defs[d].handler)) && CellsAt(w.mem, a + n + 2 + m, [SemiTok])
  {
    hide CellsAt, Emit, Layout;
    var b, h, a := Emit(defs[d].body), Emit(defs[d].handler), w.entry[d];
    GuardedLayout(defs[d]);
    GuardedSplit(w.mem, a, b, h);
  }

  lemma {:induction false} GuardedLayout(d: Def)
    requires d.Guarded?
    ensures Layout(d) == Emit(d.body) + [ThrowTok] + [CatchTok] + Emit(d.handler) + [SemiTok]
  {}

  lemma {:induction false} GuardedSplit(mem: seq<Cell>, a: int, b: seq<Cell>, h: seq<Cell>)
    requires CellsAt(mem, a, b + [ThrowTok] + [CatchTok] + h + [SemiTok])
    ensures CellsAt(mem, a, b) && CellsAt(mem, a + |b|, [ThrowTok]) && CellsAt(mem, a + |b| + 1, [CatchTok])
    ensures CellsAt(mem, a + |b| + 2, h) && CellsAt(mem, a + |b| + 2 + |h|, [SemiTok])
  {
    hide CellsAt;
    CellsSplit(mem, a, b + [ThrowTok] + [CatchTok] + h, [SemiTok]);
    CellsSplit(mem, a, b + [ThrowTok] + [CatchTok], h);
    CellsSplit(mem, a, b + [ThrowTok], [CatchTok]);
    CellsSplit(mem, a, b, [ThrowTok]);
  }

  /** Executing `(exception>)`: one frame more in the chain, the body next. */
  lemma {:induction false} EnterGuarded(w: Image, a: int, s: State) returns (t: State)
    requires CellsAt(w.mem, s.ip, [CatchTok]) && Inv(s)
    requires Spop(s.x).Some? && s.x.tos == a
    requires s.rs != [] && Chain(s.rs[1..], s.ep, s.live)
    ensures t == Catch(s, Spop(s.x).val, a) && t.ip == a && t.x == Spop(s.x).val
    ensures Reaches(w, s, t) && Inv(t)
  {
    CellAt(w.mem, s.ip, [CatchTok], 0);
    t := Catch(s, Spop(s.x).val, a);
    CatchLinks(s, Spop(s.x).val, a);
    assert Step(w, s) == Some(t);
    hide Step, Inv, Catch;
    ReachOne(w, s, t);
  }

  /** `(exception>)` adds one frame to the chain. */
  lemma {:induction false} CatchLinks(s: State, x: Data, body: int)
    requires s.rs != [] && Chain(s.rs[1..], s.ep, s.live)
    ensures var t := Catch(s, x, body);
            && Inv(t) && t.ip == body && t.x == x && t.ep == |t.rs| == |s.rs| + 5 && t.rs[5..] == s.rs
            && t.rs[0] == s.ep && t.rs[1] == x.fp && t.rs[2] == s.ip + 1 && t.rs[3] == x.sp && t.rs[4] == x.tos
  {
    var t := Catch(s, x, body);
    assert t.rs[|t.rs| - t.ep + 6..] == s.rs[1..];
  }

  /** Normal exit: `(exception;)` takes exactly its own frame off the chain and returns. */
  lemma {:induction false} ThrowUnlinks(w: Image, s: State, at: Data, a: int, m: State, e: State)
    requires CellsAt(w.mem, m.ip, [ThrowTok]) && s.rs != [] && Chain(s.rs[1..], s.ep, s.live)
    requires m == Later(Catch(s, at, a), m.ip, m.x, Catch(s, at, a).rs)
    requires e == Later(s, s.rs[0], m.x, s.rs[1..])
    ensures Step(w, m) == Some(e) && Inv(e) && e.live == m.live - 1
    ensures e.ip == s.rs[0] && e.rs == s.rs[1..] && e.ep == s.ep && e.x == m.x
  {
    CellAt(w.mem, m.ip, [ThrowTok], 0);
    CatchFrame(s, at, a);
    hide Catch, CellsAt, Chain;
    assert Throw(m) == Some(e);
  }

  lemma {:induction false} CatchFrame(s: State, x: Data, body: int)
    requires s.rs != []
    ensures var t := Catch(s, x, body);
            && |t.rs| == |s.rs| + 5 && t.rs[0] == s.ep && t.rs[5] == s.rs[0] && t.rs[6..] == s.rs[1..]
            && t.live == s.live + 1
  {}

  /** Raise: the return stack is cut back to the protected call, whose `ep`, frame pointer,
      stack depth and top cell come back, and its handler is next. */
  lemma {:induction false} RaiseResumes(w: Image, s: State, at: Data, body: int, u: State, signal: int, x: Data,
                                        v: State)
    requires AtRaise(w, Catch(s, at, body), u, signal, x) && Inv(s)
    requires Resumed(at, x, signal) == Some(v.x) && v == Later(s, s.ip + 1, v.x, s.rs)
    ensures Step(w, u) == Some(v) && Reaches(w, u, v) && v.live == u.live - 1
    ensures v.ip == s.ip + 1 && v.rs == s.rs && v.ep == s.ep && v.x.fp == at.fp
    ensures v.x.tos == signal && v.x.sp == at.sp - 1 && v.x.pm == x.pm[at.sp - 1 := at.tos]
  {
    ReachedInv(w, Catch(s, at, body), u);
    assert u.rs[|u.rs| - u.ep..] == Catch(s, at, body).rs;
    RaiseStep(w, s, at, body, u, signal, x, v);
    ResumedIs(at, x, signal);
    hide Step, Catch, Resumed, AtRaise, Chain;
    ReachOne(w, u, v);
  }

  /** The signal on top, the saved top below it, at the saved depth of the memory as it is. */
  lemma {:induction false} ResumedIs(at: Data, x: Data, signal: int)
    requires Resumed(at, x, signal).Some?
    ensures var y := Resumed(at, x, signal).val;
            && 0 < at.sp <= |x.pm|
            && y.tos == signal && y.sp == at.sp - 1 && y.pm == x.pm[at.sp - 1 := at.tos] && y.fp == at.fp
  {}

  lemma {:induction false} RaiseStep(w: Image, s: State, at: Data, body: int, u: State, signal: int, x: Data, v: State)
    requires 0 <= u.ip < |w.mem| && w.mem[u.ip] == RaiseTok
    requires u.x.tos == signal && Spop(u.x) == Some(x) && u.live == s.live + 1
    requires u.ep == |s.rs| + 5 && |u.rs| >= u.ep && u.rs[|u.rs| - u.ep..] == Catch(s, at, body).rs
    requires Resumed(at, x, signal) == Some(v.x) && v == Later(s, s.ip + 1, v.x, s.rs)
    ensures Step(w, u) == Some(v)
  {
    assert Catch(s, at, body).rs[5..] == s.rs;
    assert RaiseTo(u, x) == Some(v);
  }

  // ----- whole runs -----

  /** A task's first call: no handler, one return address. */
  function Start(w: Image, d: nat, x: Data, halt: int): Opt<State>
    requires d < |w.entry| && d < |w.code|
  {
    if w.code[d].None? then Some(State(w.entry[d], x, [halt], 0, 0))
    else
      var p := Spush(x, w.entry[d]);
      if p.Some? then Some(State(w.code[d].val, p.val, [halt], 0, 0)) else None
  }

  /** Main theorem, for every main word and every program below it. With the `ep` chain
      intact in every state, one frame for each protected call still live: a normal end stops
      with empty return stack and chain; a signal no handler takes arrives at a `raise` with
      no handler, whatever was on the return stack; and a run that never ends never breaks
      the chain. */
  lemma {:induction false} HandlersAreStructured(w: Image, defs: seq<Def>, d: nat, x: Data, halt: int, f: nat)
    requires Loaded(w, defs) && d < |defs|
    ensures var r := EvalDef(w.words, defs, w.entry, f, d, x); var s := Start(w, d, x, halt);
            r.Wrong? || (s.Some? &&
              match r
              case Done(y) => Reaches(w, s.val, State(halt, y, [], 0, 0))
              case Raised(signal, y) => exists t :: AtRaise(w, s.val, t, signal, y) && t.ep == 0 && t.live == 0
              case Timeout => Runs(w, f, s.val)
              case Wrong => true)
  {
    var r, s := EvalDef(w.words, defs, w.entry, f, d, x), Start(w, d, x, halt);
    if s.Some? {
      assert s.val.rs[1..] == [];
      if defs[d].Unguarded? {
        hide Step, Reaches, Runs, Loaded;
        SimUnguarded(w, defs, f, d, s.val);
      } else if Guard(x, w.entry[d]).Some? {
        hide Step, Reaches, Runs, Loaded;
        SimGuarded(w, defs, f, d, x, s.val);
      }
    }
  }

  lemma {:induction false} FivePushes(a: int, b: int, c: int, d: int, e: int, rs: seq<int>)
    ensures [a] + ([b] + ([c] + ([d] + ([e] + rs)))) == [a, b, c, d, e] + rs
  {}

  // ----- the words on the machine's registers -----

  class ExceptionMachine {
    const pm: array<int>
    const ret: array<int>
    var ip: int
    var tos: int
    var sp: nat
    var fp: int
    var rp: nat
    var ep: int            // return-stack height of the innermost frame, 0 for none
    ghost var live: nat

    ghost predicate Valid()
      reads this
    {
      sp <= pm.Length && rp <= ret.Length && pm != ret
    }

    ghost function View(): State
      requires Valid()
      reads this, pm, ret
    {
      State(ip, Data(tos, sp, pm[..], fp), ret[rp..], ep, live)
    }

    constructor (params: nat, returns_: nat)
      ensures Valid() && fresh(pm) && fresh(ret) && pm.Length == params && ret.Length == returns_
      ensures Inv(View())
    {
      pm := new int[params];
      ret := new int[returns_];
      ip, tos, sp, fp, rp, ep, live := 0, 0, params, 0, returns_, 0, 0;
    }

    method Rpush(v: int)
      requires Valid() && rp > 0
      modifies this`rp, ret
      ensures Valid() && rp == old(rp) - 1 && ret[rp..] == [v] + old(ret[rp..])
    {
      rp := rp - 1;
      ret[rp] := v;
    }

    /** The five pushes of `(exception>)`. */
    method PushFrame()
      requires Valid() && rp >= 5
      modifies this`rp, ret
      ensures Valid() && rp == old(rp) - 5
      ensures ret[rp..] == [ep, fp, ip + 1, sp, tos] + old(ret[rp..])
    {
      Rpush(tos);
      Rpush(sp);
      Rpush(ip + 1);
      Rpush(fp);
      Rpush(ep);
      FivePushes(ep, fp, ip + 1, sp, tos, old(ret[rp..]));
    }

    /** `(exception>)`, entered with `ip` at its own cell. */
    method DoParenException()
      requires Valid() && sp < pm.Length && rp >= 5
      modifies this, ret
      ensures Valid() && View() == Catch(old(View()), Spop(old(View()).x).val, old(tos))
      ensures ip == old(tos) && ep == ret.Length - rp && tos == old(pm[sp]) && sp == old(sp) + 1 && fp == old(fp)
      ensures ret[rp..] == [old(ep), fp, old(ip) + 1, sp, tos] + old(ret[rp..])
    {
      var body := tos;
      tos := pm[sp];
      sp := sp + 1;
      PushFrame();
      ep := ret.Length - rp;
      ip := body;
      live := live + 1;
    }

    /** `(exception;)` */
    method DoParenExceptionSemicolon()
      requires Valid() && rp + 6 <= ret.Length && live > 0
      modifies this
      ensures Valid() && Some(View()) == Throw(old(View()))
      ensures ep == old(ret[rp]) && ip == old(ret[rp + 5]) && ret[rp..] == old(ret[rp + 6..])
    {
      ep := ret[rp];
      rp := rp + 5;
      ip := ret[rp];
      rp := rp + 1;
      live := live - 1;
    }

    /** The pops of `raise` and the push of the signal. */
    method ResumeFrame(signal: int)
      requires Valid() && 5 <= ep && ret.Length - ep >= rp && 0 < ret[ret.Length - ep + 3] <= pm.Length
      modifies this, pm
      ensures Valid() && live == old(live) && tos == signal && rp == old(ret.Length - ep + 5)
      ensures ep == old(ret[ret.Length - ep]) && fp == old(ret[ret.Length - ep + 1])
      ensures ip == old(ret[ret.Length - ep + 2]) && sp == old(ret[ret.Length - ep + 3]) - 1
      ensures pm[..] == old(pm[..])[sp := old(ret[ret.Length - ep + 4])]
    {
      rp := ret.Length - ep;
      ep := ret[rp];
      fp := ret[rp + 1];
      ip := ret[rp + 2];
      sp := ret[rp + 3];
      tos := ret[rp + 4];
      rp := rp + 5;
      sp := sp - 1;
      pm[sp] := tos;
      tos := signal;
    }

    /** `raise`: false when there is no exception block. */
    method DoRaise() returns (caught: bool)
      requires Valid() && sp < pm.Length && Inv(View())
      requires ep != 0 ==> 0 < ret[ret.Length - ep + 3] <= pm.Length
      modifies this, pm
      ensures Valid() && caught == (old(ep) != 0)
      ensures caught ==> Some(View()) == RaiseTo(old(View()), Spop(old(View()).x).val)
      ensures !caught ==> View() == old(View()).(x := Spop(old(View()).x).val)
    {
      ghost var rs := ret[rp..];
      assert ep != 0 ==> rs[|rs| - ep..] == ret[ret.Length - ep..];
      var s := tos;
      tos := pm[sp];
      sp := sp + 1;
      caught := ep != 0;
      if caught {
        ResumeFrame(s);
        live := live - 1;
      }
    }
  }
}
