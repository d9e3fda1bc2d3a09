/** Argument frames: `(link)` builds them in place on the parameter stack under the cached
    top of stack, `(unlink)` removes them and moves the results down over the arguments. */
module Frames {
  import opened ThreadedCode
  import opened Options
  import opened Arithmetic
  import opened Structured

  /** Registers and parameter memory. The stack grows downwards from `|pm|`; `tos` is cached.
      Addresses are cell indices into `pm`; the bottom cell below all data is never popped. */
  datatype FState = FState(tos: int, sp: nat, pm: seq<int>, fp: int, rs: seq<int>)

  ghost predicate Sane(s: FState) { s.sp <= |s.pm| }

  /** The parameter stack as a value, top first. */
  function Ds(s: FState): seq<int>
    requires s.sp <= |s.pm|
  {
    [s.tos] + s.pm[s.sp..]
  }

  datatype Exit<T> = Ok(val: T) | Overflow

  /** `spush` */
  function Push(s: FState, x: int): Exit<FState> {
    if 0 < s.sp <= |s.pm| then Ok(s.(sp := s.sp - 1, pm := s.pm[s.sp - 1 := s.tos], tos := x))
    else Overflow
  }

  /** `flink` with `n` arguments and `l` further locals. */
  function Link(s: FState, n: nat, l: nat): Exit<FState> {
    var p := Push(s, s.fp);
    if p.Overflow? || p.val.sp < l then Overflow
    else
      var sp := p.val.sp - l;
      Ok(p.val.(fp := p.val.sp + n, sp := sp, rs := [sp] + s.rs))
  }

  /** The state `funlink` may start from: the frame pushed on the return stack lies in the
      parameter area, above the saved pointer cell when there are results. */
  ghost predicate Linked(s: FState) {
    && s.rs != [] && s.sp <= s.rs[0] <= s.fp < |s.pm|
  }

  /** `funlink`: with no result the cached top is the saved frame pointer; otherwise the cell
      under the frame is, and the results below it move up to the frame's end. */
  function Unlink(s: FState): (r: FState)
    requires s.rs != [] && s.sp <= s.rs[0] <= s.fp < |s.pm|
  {
    var t := s.rs[0];
    if t == s.sp then
      s.(sp := s.fp + 1, fp := s.tos, tos := s.pm[s.fp], rs := s.rs[1..])
    else
      var moved := s.pm[s.sp..t - 1];
      var to := s.fp - |moved|;
      s.(sp := to, fp := s.pm[t - 1], pm := s.pm[..to] + moved + s.pm[s.fp..], rs := s.rs[1..])
  }

  /** `(local@)`, and a local's own name: push `*(fp - k)`. */
  function LocalFetch(s: FState, k: nat): Exit<FState>
    requires 0 <= s.fp - k < |s.pm|
  {
    Push(s, s.pm[s.fp - k])
  }

  /** `(local!)` and `->`: store the top at `fp - k` and pop it. */
  function LocalStore(s: FState, k: nat): FState
    requires 0 <= s.fp - k < |s.pm| && s.sp < |s.pm|
  {
    var pm := s.pm[s.fp - k := s.tos];
    s.(pm := pm, tos := pm[s.sp], sp := s.sp + 1)
  }

  // ----- a language of framed definitions -----

  datatype FStmt =
    | FSkip
    | FSeq(first: FStmt, second: FStmt)
    | FLit(n: int)
    | FPlain(id: nat)
    | FGet(k: nat)                 // name of the k-th local, counted from 1
    | FSet(k: nat)                 // -> local
    | FIf(thn: FStmt, els: FStmt)
    | FWhile(cond: FStmt, body: FStmt)   // begin cond while body repeat
    | FDo(body: FStmt, plus: bool)       // do body loop, or +loop
    | FIndex(outer: bool)                // i or j
    | FLeave                             // leave
    | FCall(d: nat)
    | FTail                        // tail-recurse
    | FExit                        // exit

  datatype FDef = FDef(args: nat, locals: nat, body: FStmt)

  /** At its end, by `leave`, by `exit`, or by asking with `tail-recurse` for the body to start
      again. */
  datatype How = HFell | HLeft | HReturned | HRestarted

  /** The end of a loop's turn: the operands, the index moved on, whether there is another. */
  datatype Turned = Turned(ds: seq<int>, loop: Loop, again: bool)

  function TurnOf(plus: bool, ds: seq<int>, l: Loop): Opt<Turned> {
    if plus && ds == [] then None
    else
      var d := if plus then ds[0] else 1;
      var index := Wrap(l.index + d);
      Some(Turned(if plus then ds[1..] else ds, Loop(l.limit, index), Continues(d, l.limit, index)))
  }

  /** What a body does: operand stack of this frame alone (top first) and local values,
      unset ones being `None`. */
  datatype FRes = FDone(ds: seq<int>, vars: seq<Opt<int>>, how: How) | FWrong | FTimeout

  datatype DRes = DDone(results: seq<int>) | DWrong | DTimeout

  function Reverse<T>(s: seq<T>): (r: seq<T>)
    ensures |r| == |s|
    ensures forall i :: 0 <= i < |s| ==> r[i] == s[|s| - 1 - i]
  {
    if s == [] then [] else Reverse(s[1..]) + [s[0]]
  }

  /** Locals at the start of a body: the arguments in the order they were pushed, then the
      unset ones. */
  function Initial(top: seq<int>, l: nat): (vars: seq<Opt<int>>)
    ensures |vars| == |top| + l
    ensures forall i :: 0 <= i < |top| ==> vars[i] == Some(top[|top| - 1 - i])
    ensures forall i :: |top| <= i < |vars| ==> vars[i] == None
  {
    seq(|top|, i requires 0 <= i < |top| => Some(top[|top| - 1 - i])) + seq(l, _ => None)
  }

  /** Source meaning of a statement in the body of definition `d`. */
  function FEval(sem: Sem, defs: seq<FDef>, f: nat, d: nat, c: FStmt, ds: seq<int>, vars: seq<Opt<int>>,
                 loops: seq<Loop>): FRes
    requires d < |defs|
    decreases f, 1, c, 0
  {
    match c
    case FSkip => FDone(ds, vars, HFell)
    case FSeq(a, b) =>
      var r := FEval(sem, defs, f, d, a, ds, vars, loops);
      if r.FDone? && r.how == HFell then FEval(sem, defs, f, d, b, r.ds, r.vars, loops) else r
    case FLit(n) => FDone([n] + ds, vars, HFell)
    case FPlain(id) =>
      var r := sem(id, ds);
      if r.Some? then FDone(r.val, vars, HFell) else FWrong
    case FGet(k) =>
      if 1 <= k <= |vars| && vars[k - 1].Some? then FDone([vars[k - 1].val] + ds, vars, HFell) else FWrong
    case FSet(k) =>
      if 1 <= k <= |vars| && ds != [] then FDone(ds[1..], vars[k - 1 := Some(ds[0])], HFell) else FWrong
    case FIf(t, e) =>
      if ds == [] then FWrong else FEval(sem, defs, f, d, if ds[0] != 0 then t else e, ds[1..], vars, loops)
    case FWhile(t, b) =>
      var r := FEval(sem, defs, f, d, t, ds, vars, loops);
      if !(r.FDone? && r.how == HFell) then r
      else if r.ds == [] then FWrong
      else if r.ds[0] == 0 then FDone(r.ds[1..], r.vars, HFell)
      else
        var r2 := FEval(sem, defs, f, d, b, r.ds[1..], r.vars, loops);
        if !(r2.FDone? && r2.how == HFell) then r2
        else if f == 0 then FTimeout
        else FEval(sem, defs, f - 1, d, c, r2.ds, r2.vars, loops)
    case FDo(b, plus) =>
      if |ds| < 2 then FWrong else FLoop(sem, defs, f, d, b, plus, Loop(ds[1], ds[0]), ds[2..], vars, loops)
    case FIndex(outer) =>
      if |loops| < (if outer then 2 else 1) then FWrong
      else FDone([loops[if outer then 1 else 0].index] + ds, vars, HFell)
    case FLeave => if loops == [] then FWrong else FDone(ds, vars, HLeft)
    case FCall(e) => FEvalCall(sem, defs, f, e, ds, vars)
    case FTail => if loops == [] then FDone(ds, vars, HRestarted) else FWrong
    case FExit => if loops == [] then FDone(ds, vars, HReturned) else FWrong
  }

  /** The turns of a counted loop. */
  function FLoop(sem: Sem, defs: seq<FDef>, f: nat, d: nat, b: FStmt, plus: bool, l: Loop, ds: seq<int>,
                 vars: seq<Opt<int>>, loops: seq<Loop>): FRes
    requires d < |defs|
    decreases f, 1, b, 1
  {
    var r := FEval(sem, defs, f, d, b, ds, vars, [l] + loops);
    if r.FDone? && r.how == HLeft then FDone(r.ds, r.vars, HFell)
    else if !(r.FDone? && r.how == HFell) then r
    else
      var t := TurnOf(plus, r.ds, l);
      if t.None? then FWrong
      else if !t.val.again then FDone(t.val.ds, r.vars, HFell)
      else if f == 0 then FTimeout
      else FLoop(sem, defs, f - 1, d, b, plus, t.val.loop, t.val.ds, r.vars, loops)
  }

  /** A call takes its arguments from the top of the operands and leaves its results there. */
  function FEvalCall(sem: Sem, defs: seq<FDef>, f: nat, e: nat, ds: seq<int>, vars: seq<Opt<int>>): FRes
    decreases f, 0
  {
    if e >= |defs| || |ds| < defs[e].args then FWrong
    else if f == 0 then FTimeout
    else
      var n := defs[e].args;
      match Apply(sem, defs, f - 1, e, ds[..n])
      case DDone(results) => FDone(results + ds[n..], vars, HFell)
      case DWrong => FWrong
      case DTimeout => FTimeout
  }

  /** A definition applied to its arguments (top first). After `tail-recurse` the operands
      are what a caller would have: new arguments over results that stay. */
  function Apply(sem: Sem, defs: seq<FDef>, f: nat, d: nat, top: seq<int>): DRes
    requires d < |defs|
    decreases f, 2
  {
    match FEval(sem, defs, f, d, defs[d].body, [], Initial(top, defs[d].locals), [])
    case FDone(ds, _, how) =>
      var n := defs[d].args;
      if how != HRestarted then DDone(ds)
      else if |ds| < n then DWrong
      else if f == 0 then DTimeout
      else
        (match Apply(sem, defs, f - 1, d, ds[..n])
         case DDone(results) => DDone(results + ds[n..])
         case DWrong => DWrong
         case DTimeout => DTimeout)
    case FWrong => DWrong
    case FTimeout => DTimeout
  }

  // ----- how many cells that takes -----

  function Max(a: nat, b: nat): nat { if a < b then b else a }

  /** The most cells over what lies below the frame that a statement pushes to: operands,
      saved frame pointer and locals, and the frames of its calls. */
  function FPeak(sem: Sem, defs: seq<FDef>, f: nat, d: nat, c: FStmt, ds: seq<int>, vars: seq<Opt<int>>,
                 loops: seq<Loop>): nat
    requires d < |defs|
    decreases f, 1, c, 0
  {
    match c
    case FSeq(a, b) =>
      var r := FEval(sem, defs, f, d, a, ds, vars, loops);
      Max(FPeak(sem, defs, f, d, a, ds, vars, loops),
          if r.FDone? && r.how == HFell then FPeak(sem, defs, f, d, b, r.ds, r.vars, loops) else 0)
    case FLit(_) => |ds| + 2 + |vars|
    case FGet(_) => |ds| + 2 + |vars|
    case FPlain(id) => var r := sem(id, ds); if r.Some? then |r.val| + 1 + |vars| else 0
    case FIf(t, e) => if ds == [] then 0 else FPeak(sem, defs, f, d, if ds[0] != 0 then t else e, ds[1..], vars, loops)
    case FWhile(t, b) =>
      var r := FEval(sem, defs, f, d, t, ds, vars, loops);
      var p := FPeak(sem, defs, f, d, t, ds, vars, loops);
      if !(r.FDone? && r.how == HFell) || r.ds == [] || r.ds[0] == 0 then p
      else
        var r2 := FEval(sem, defs, f, d, b, r.ds[1..], r.vars, loops);
        var q := Max(p, FPeak(sem, defs, f, d, b, r.ds[1..], r.vars, loops));
        if r2.FDone? && r2.how == HFell &&
          f > 0 then Max(q, FPeak(sem, defs, f - 1, d, c, r2.ds, r2.vars, loops)) else q
    case FDo(b, plus) =>
      if |ds| < 2 then 0 else LoopPeak(sem, defs, f, d, b, plus, Loop(ds[1], ds[0]), ds[2..], vars, loops)
    case FIndex(_) => |ds| + 2 + |vars|
    case FCall(e) => FCallPeak(sem, defs, f, e, ds, 1 + |vars|)
    case _ => 0
  }

  function LoopPeak(sem: Sem, defs: seq<FDef>, f: nat, d: nat, b: FStmt, plus: bool, l: Loop, ds: seq<int>,
                    vars: seq<Opt<int>>, loops: seq<Loop>): nat
    requires d < |defs|
    decreases f, 1, b, 1
  {
    var r, p := FEval(sem, defs, f, d, b, ds, vars, [l] + loops), FPeak(sem, defs, f, d, b, ds, vars, [l] + loops);
    var t := if r.FDone? && r.how == HFell then TurnOf(plus, r.ds, l) else None;
    if t.Some? && t.val.again && f > 0 then
      Max(p, LoopPeak(sem, defs, f - 1, d, b, plus, t.val.loop, t.val.ds, r.vars, loops))
    else p
  }

  /** The arguments of a call are part of the called frame, `under` cells of this one are not. */
  function FCallPeak(sem: Sem, defs: seq<FDef>, f: nat, e: nat, ds: seq<int>, under: nat): nat
    decreases f, 0
  {
    if e >= |defs| || |ds| < defs[e].args || f == 0 then 0
    else |ds| - defs[e].args + under + ApplyPeak(sem, defs, f - 1, e, ds[..defs[e].args])
  }

  function ApplyPeak(sem: Sem, defs: seq<FDef>, f: nat, d: nat, top: seq<int>): nat
    requires d < |defs|
    decreases f, 2
  {
    var vars, n := Initial(top, defs[d].locals), defs[d].args;
    var r := FEval(sem, defs, f, d, defs[d].body, [], vars, []);
    var p := Max(1 + |vars|, FPeak(sem, defs, f, d, defs[d].body, [], vars, []));
    if r.FDone? && r.how == HRestarted && |r.ds| >= n && f > 0 then
      Max(p, |r.ds| - n + ApplyPeak(sem, defs, f - 1, d, r.ds[..n]))
    else p
  }

  // ----- the same language on registers and memory -----

  /** How execution of a statement leaves the machine: still in its frame, at
      its end or out of the innermost loop by `leave`, or with the frame removed by `exit`,
        or removed by `tail-recurse` and at the start of the body. `XStuck`
      is an access outside memory. */
  datatype XRes =
    | XFell(s: FState) | XLeft(s: FState) | XGone(s: FState) | XAgain(s: FState)
    | XOverflow | XStuck | XTimeout

  /** A plain word on the machine: its result is written back through `tos` and memory. */
  function Plain(sem: Sem, id: nat, s: FState): XRes
    requires s.sp <= |s.pm|
  {
    var r := sem(id, Ds(s));
    if r.None? || r.val == [] then XStuck
    else if |r.val| > |s.pm| + 1 then XOverflow
    else
      var sp := |s.pm| + 1 - |r.val|;
      XFell(s.(tos := r.val[0], sp := sp, pm := s.pm[..sp] + r.val[1..]))
  }

  function FromExit(e: Exit<FState>): XRes {
    if e.Ok? then XFell(e.val) else XOverflow
  }

  function Exec(sem: Sem, defs: seq<FDef>, f: nat, d: nat, c: FStmt, s: FState): XRes
    requires d < |defs|
    decreases f, 1, c, 0
  {
    if s.sp > |s.pm| then XStuck
    else
      match c
      case FSkip => XFell(s)
      case FSeq(a, b) =>
        var r := Exec(sem, defs, f, d, a, s);
        if r.XFell? then Exec(sem, defs, f, d, b, r.s) else r
      case FLit(n) => FromExit(Push(s, n))
      case FPlain(id) => Plain(sem, id, s)
      case FGet(k) => if 0 <= s.fp - k < |s.pm| then FromExit(LocalFetch(s, k)) else XStuck
      case FSet(k) =>
        if 0 <= s.fp - k < |s.pm| && s.sp < |s.pm| then XFell(LocalStore(s, k)) else XStuck
      case FIf(t, e) =>
        if s.sp == |s.pm| then XStuck
        else Exec(sem, defs, f, d, if s.tos != 0 then t else e, s.(tos := s.pm[s.sp], sp := s.sp + 1))
      case FCall(e) =>
        // push the return address, run the body, return
        if e >= |defs| then XStuck
        else if f == 0 then XTimeout
        else
          var r := ExecDef(sem, defs, f - 1, e, s.(rs := [RETURN_ADDRESS] + s.rs));
          if !r.XGone? then r
          else if r.s.rs == [] then XStuck
          else XFell(r.s.(rs := r.s.rs[1..]))
      case FWhile(t, b) =>
        var r := Exec(sem, defs, f, d, t, s);
        if !r.XFell? then r
        else if r.s.sp >= |r.s.pm| then XStuck
        else
          var p := r.s.(tos := r.s.pm[r.s.sp], sp := r.s.sp + 1);
          if r.s.tos == 0 then XFell(p)
          else
            var r2 := Exec(sem, defs, f, d, b, p);
            if !r2.XFell? then r2
            else if f == 0 then XTimeout
            else Exec(sem, defs, f - 1, d, c, r2.s)
      case FDo(b, plus) =>
        if s.sp + 1 >= |s.pm| then XStuck
        else
          var x := s.(tos := s.pm[s.sp + 1], sp := s.sp + 2, rs := [s.pm[s.sp], s.tos, LOOP_CELL] + s.rs);
          XLoop(sem, defs, f, d, b, plus, x)
      case FIndex(outer) =>
        var n := if outer then 4 else 1;
        if n < |s.rs| then FromExit(Push(s, s.rs[n])) else XStuck
      case FLeave => if |s.rs| < 3 then XStuck else XLeft(s.(rs := s.rs[3..]))
      case FTail =>
        // (unlink), then branch to the start of the body
        if Linkable(s) then XAgain(Unlink(s)) else XStuck
      case FExit => if Linkable(s) then XGone(Unlink(s)) else XStuck
  }

  /** The turns of a loop whose three cells are on the return stack. */
  function XLoop(sem: Sem, defs: seq<FDef>, f: nat, d: nat, b: FStmt, plus: bool, s: FState): XRes
    requires d < |defs|
    decreases f, 1, b, 1
  {
    var r := Exec(sem, defs, f, d, b, s);
    if r.XLeft? then XFell(r.s)
    else if !r.XFell? then r
    else if |r.s.rs| < 3 || (plus && r.s.sp >= |r.s.pm|) then XStuck
    else
      var n := if plus then r.s.tos else 1;
      var p := if plus then r.s.(tos := r.s.pm[r.s.sp], sp := r.s.sp + 1) else r.s;
      var index := Wrap(p.rs[1] + n);
      if !Continues(n, p.rs[0], index) then XFell(p.(rs := p.rs[3..]))
      else if f == 0 then XTimeout
      else XLoop(sem, defs, f - 1, d, b, plus, p.(rs := p.rs[1 := index]))
  }

  /** Stands for the address after the call; nothing here looks at its value. */
  const RETURN_ADDRESS: int := 1

  /** Stands for the address of the loop's offset cell, where `leave` finds the loop's end. */
  const LOOP_CELL: int := 2

  predicate Linkable(s: FState) {
    s.rs != [] && s.sp <= s.rs[0] <= s.fp < |s.pm|
  }

  /** From the start of a body: `(link)`, the statements, `(unlink)`. */
  function ExecDef(sem: Sem, defs: seq<FDef>, f: nat, d: nat, s: FState): XRes
    requires d < |defs|
    decreases f, 2
  {
    var e := Link(s, defs[d].args, defs[d].locals);
    if e.Overflow? then XOverflow
    else
      var r := Exec(sem, defs, f, d, defs[d].body, e.val);
      if r.XAgain? then (if f == 0 then XTimeout else ExecDef(sem, defs, f - 1, d, r.s))
      else if !r.XFell? then r
      else if Linkable(r.s) then XGone(Unlink(r.s)) else XStuck
  }

  // ----- the frame relation -----

  /** Plain words only look at what they consume. */
  ghost predicate Local(sem: Sem) {
    forall id, ds, rest :: sem(id, ds).Some? ==> sem(id, ds + rest) == Some(sem(id, ds).val + rest)
  }

  /** Cells of the locals, last local first, agree with the values set so far. */
  ghost predicate Holds(cells: seq<int>, vars: seq<Opt<int>>) {
    && |cells| == |vars|
    && forall k :: 0 <= k < |vars| && vars[k].Some? ==> cells[|vars| - 1 - k] == vars[k].val
  }

  /** Limit, index and offset cell of every open loop. */
  function LoopCells(loops: seq<Loop>): seq<int> {
    if loops == [] then [] else [loops[0].limit, loops[0].index, LOOP_CELL] + LoopCells(loops[1..])
  }

  /** In the frame: operands, the caller's frame pointer, the locals, what lies below, in
      this order; `fp` is the frame's end and the return stack holds the frame's start, the
      open loops of the body over it. */
  ghost predicate InFrame(s: FState, ds: seq<int>, cells: seq<int>, vars: seq<Opt<int>>, saved: int,
                          below: seq<int>, rest: seq<int>, loops: seq<Loop>) {
    && Sane(s) && Holds(cells, vars) && below != []
    && Ds(s) == ds + [saved] + cells + below
    && s.fp == |s.pm| - |below|
    && s.rs == LoopCells(loops) + ([s.fp - |cells|] + rest)
  }

  lemma {:induction false} LinkMakesFrame(s: FState, top: seq<int>, below: seq<int>, l: nat) returns (cells: seq<int>)
    requires Sane(s) && Ds(s) == top + below && below != []
    requires Link(s, |top|, l).Ok?
    ensures InFrame(Link(s, |top|, l).val, [], cells, Initial(top, l), s.fp, below, s.rs, [])
  {
    var s' := Link(s, |top|, l).val;
    var p := Push(s, s.fp).val;
    assert p.pm[p.sp..] == top + below by { assert p.pm[p.sp..] == [s.tos] + s.pm[s.sp..]; }
    assert s'.pm == p.pm && s'.sp == p.sp - l && s'.tos == s.fp && s'.fp == p.sp + |top|;
    assert s'.rs == [s'.sp] + s.rs && |s'.pm| == p.sp + |top| + |below|;
    hide Link, Push;
    cells := s'.pm[s'.sp..p.sp] + top;
    assert s'.pm[s'.sp..] == s'.pm[s'.sp..p.sp] + (top + below);
    FrameShape(s.fp, s'.pm[s'.sp..p.sp], top, below);
    InitialHeld(s'.pm[s'.sp..p.sp], top);
    hide Holds;
  }

  lemma {:induction false} FrameShape(fp: int, free: seq<int>, top: seq<int>, below: seq<int>)
    ensures [fp] + (free + (top + below)) == [] + [fp] + (free + top) + below
  {}

  lemma {:induction false} InitialHeld(free: seq<int>, top: seq<int>)
    ensures Holds(free + top, Initial(top, |free|))
  {}

  /** Removing a frame leaves the operands as results on what was below, and restores the
      caller's frame pointer and return stack. */
  lemma {:induction false} UnlinkRemovesFrame(s: FState, ds: seq<int>, cells: seq<int>, vars: seq<Opt<int>>, saved: int,
                           below: seq<int>, rest: seq<int>)
    requires InFrame(s, ds, cells, vars, saved, below, rest, [])
    ensures Linkable(s)
    ensures var s' := Unlink(s);
            Sane(s') && |s'.pm| == |s.pm| && Ds(s') == ds + below && s'.fp == saved && s'.rs == rest
  {
    assert |Ds(s)| == |ds| + 1 + |cells| + |below|;
    assert s.pm[s.fp..] == below by {
      assert s.pm[s.fp..] == Ds(s)[|ds| + 1 + |cells|..];
    }
    if ds == [] {
      assert s.tos == Ds(s)[0] == saved;
      assert [s.pm[s.fp]] + s.pm[s.fp + 1..] == s.pm[s.fp..];
    } else {
      ResultsMove(s, ds, saved, cells + below);
    }
  }

  /** With results: the cell under the frame is the saved pointer, the cells below it are
      the results but the cached one. */
  lemma {:induction false} ResultsMove(s: FState, ds: seq<int>, saved: int, more: seq<int>)
    requires s.sp <= |s.pm| && Ds(s) == ds + ([saved] + more) && ds != []
    requires s.rs != [] && s.rs[0] == |s.pm| - |more| && s.rs[0] <= s.fp < |s.pm|
    ensures s.sp < s.rs[0] && s.sp + |ds| == s.rs[0]
    ensures var s' := Unlink(s);
            s'.sp <= |s'.pm| == |s.pm| && Ds(s') == ds + s.pm[s.fp..] && s'.fp == saved && s'.rs == s.rs[1..]
  {
    var t := s.rs[0];
    assert |Ds(s)| == |ds| + 1 + |more|;
    assert s.pm[t - 1] == Ds(s)[|ds|];
    var moved := s.pm[s.sp..t - 1];
    assert [s.tos] + moved == Ds(s)[..|ds|] == ds;
    var s' := Unlink(s);
    assert s'.pm[s'.sp..] == moved + s.pm[s.fp..];
  }

  /** A state with the given stack value, the rest of the memory being irrelevant. */
  lemma {:induction false} OperandsChange(s: FState, s': FState, ds: seq<int>, ds': seq<int>, cells: seq<int>,
                                          vars: seq<Opt<int>>, saved: int, below: seq<int>, rest: seq<int>,
                                          loops: seq<Loop>)
    requires InFrame(s, ds, cells, vars, saved, below, rest, loops)
    requires Sane(s') && |s'.pm| == |s.pm| && s'.fp == s.fp && s'.rs == s.rs
    requires Ds(s') == ds' + ([saved] + cells + below)
    ensures InFrame(s', ds', cells, vars, saved, below, rest, loops)
  {
    assert ds' + ([saved] + cells + below) == ds' + [saved] + cells + below;
  }

  lemma {:induction false} PushDs(s: FState, x: int)
    requires Sane(s) && Push(s, x).Ok?
    ensures var s' := Push(s, x).val; Sane(s') && |s'.pm| == |s.pm| && Ds(s') == [x] + Ds(s)
  {}

  /** The frame is gone: the operands lie on what was below, and the caller's frame pointer
      and return stack are back. */
  ghost predicate Left(s: FState, ds: seq<int>, saved: int, below: seq<int>, rest: seq<int>, n: nat) {
    Sane(s) && |s.pm| == n && Ds(s) == ds + below && s.fp == saved && s.rs == rest
  }

  /** What a statement's execution must look like when its evaluation is defined: memory of
      `n` cells overflows exactly if the peak does not fit. */
  ghost predicate Matches(x: XRes, r: FRes, peak: nat, saved: int, below: seq<int>, rest: seq<int>, n: nat,
                          loops: seq<Loop>) {
    match r
    case FDone(ds, vars, how) =>
      if |below| + peak > n + 1 then x.XOverflow?
      else if how == HFell then
        x.XFell? && |x.s.pm| == n && exists cells :: InFrame(x.s, ds, cells, vars, saved, below, rest, loops)
      else if how == HLeft then
        && loops != [] && x.XLeft? && |x.s.pm| == n
        && exists cells :: InFrame(x.s, ds, cells, vars, saved, below, rest, loops[1..])
      else
        loops == [] && (if how == HReturned then x.XGone? else x.XAgain?) && Left(x.s, ds, saved, below, rest, n)
    case FTimeout => if |below| + peak > n + 1 then x.XOverflow? else x.XTimeout?
    case FWrong => true
  }

  lemma {:induction false} ExecMatches(sem: Sem, defs: seq<FDef>, f: nat, d: nat, c: FStmt, s: FState, ds: seq<int>,
                                       cells: seq<int>, vars: seq<Opt<int>>, saved: int, below: seq<int>,
                                       rest: seq<int>, loops: seq<Loop>)
    requires d < |defs| && Local(sem) && InFrame(s, ds, cells, vars, saved, below, rest, loops)
    ensures Matches(Exec(sem, defs, f, d, c, s), FEval(sem, defs, f, d, c, ds, vars, loops),
                    FPeak(sem, defs, f, d, c, ds, vars, loops), saved, below, rest, |s.pm|, loops)
    decreases f, 1, c, 1
  {
    hide InFrame, Local, Plain, LocalStore, Unlink;
    FrameIsSane(s, ds, cells, vars, saved, below, rest, loops);
    match c
    case FSkip =>
    case FSeq(a, b) => SeqMatches(sem, defs, f, d, a, b, s, ds, cells, vars, saved, below, rest, loops);
    case FLit(n) => PushMatches(s, n, ds, cells, vars, saved, below, rest, loops);
    case FPlain(id) => PlainMatches(sem, id, s, ds, cells, vars, saved, below, rest, loops);
    case FGet(k) =>
      if 1 <= k <= |vars| && vars[k - 1].Some? {
        LocalCell(s, ds, cells, vars, saved, below, rest, k, loops);
        PushMatches(s, vars[k - 1].val, ds, cells, vars, saved, below, rest, loops);
      }
    case FSet(k) =>
      if 1 <= k <= |vars| && ds != [] { StoreMatches(s, ds, cells, vars, saved, below, rest, k, loops); }
    case FIf(t, e) =>
      if ds != [] {
        var s' := Popped(s, ds, cells, vars, saved, below, rest, loops);
        ExecMatches(sem, defs, f, d, if ds[0] != 0 then t else e, s', ds[1..], cells, vars, saved, below, rest, loops);
      }
    case FWhile(t, b) => WhileMatches(sem, defs, f, d, t, b, s, ds, cells, vars, saved, below, rest, loops);
    case FDo(b, plus) => DoMatches(sem, defs, f, d, b, plus, s, ds, cells, vars, saved, below, rest, loops);
    case FIndex(outer) => IndexMatches(sem, defs, f, d, outer, s, ds, cells, vars, saved, below, rest, loops);
    case FLeave => if loops != [] { LeaveMatches(s, ds, cells, vars, saved, below, rest, loops); }
    case FCall(e) => CallMatches(sem, defs, f, d, e, s, ds, cells, vars, saved, below, rest, loops);
    case FTail => if loops == [] { UnlinkRemovesFrame(s, ds, cells, vars, saved, below, rest); }
    case FExit => if loops == [] { UnlinkRemovesFrame(s, ds, cells, vars, saved, below, rest); }
  }

  lemma {:induction false} IndexMatches(sem: Sem, defs: seq<FDef>, f: nat, d: nat, outer: bool, s: FState, ds: seq<int>,
                                        cells: seq<int>, vars: seq<Opt<int>>, saved: int, below: seq<int>,
                                        rest: seq<int>, loops: seq<Loop>)
    requires d < |defs| && InFrame(s, ds, cells, vars, saved, below, rest, loops)
    ensures Matches(Exec(sem, defs, f, d, FIndex(outer), s), FEval(sem, defs, f, d, FIndex(outer), ds, vars, loops),
                    |ds| + 2 + |vars|, saved, below, rest, |s.pm|, loops)
  {
    FrameIsSane(s, ds, cells, vars, saved, below, rest, loops);
    var k := if outer then 1 else 0;
    if |loops| > k {
      LoopCellsAt(loops, k);
      assert s.rs[3 * k + 1] == loops[k].index;
      PushMatches(s, loops[k].index, ds, cells, vars, saved, below, rest, loops);
    }
  }

  lemma {:induction false} LoopCellsAt(loops: seq<Loop>, k: nat)
    requires k < |loops|
    ensures |LoopCells(loops)| == 3 * |loops|
    ensures LoopCells(loops)[3 * k] == loops[k].limit && LoopCells(loops)[3 * k + 1] == loops[k].index
    decreases |loops|
  {
    if k > 0 {
      LoopCellsAt(loops[1..], k - 1);
    } else if |loops| > 1 {
      LoopCellsAt(loops[1..], 0);
    }
  }

  lemma {:induction false} LeaveMatches(s: FState, ds: seq<int>, cells: seq<int>, vars: seq<Opt<int>>, saved: int,
                                        below: seq<int>, rest: seq<int>, loops: seq<Loop>)
    requires InFrame(s, ds, cells, vars, saved, below, rest, loops) && loops != []
    ensures |s.rs| >= 3 && InFrame(s.(rs := s.rs[3..]), ds, cells, vars, saved, below, rest, loops[1..])
    ensures Matches(XLeft(s.(rs := s.rs[3..])), FDone(ds, vars, HLeft), 0, saved, below, rest, |s.pm|, loops)
  {
    FrameIsSane(s, ds, cells, vars, saved, below, rest, loops);
    var s' := s.(rs := s.rs[3..]);
    assert s'.rs == LoopCells(loops[1..]) + ([s.fp - |cells|] + rest);
    assert InFrame(s', ds, cells, vars, saved, below, rest, loops[1..]);
  }

  /** Another frame of the innermost loop, or none: the rest stays. */
  lemma {:induction false} InLoop(s: FState, ds: seq<int>, cells: seq<int>, vars: seq<Opt<int>>, saved: int,
                                  below: seq<int>, rest: seq<int>, loops: seq<Loop>, l: Loop)
    requires InFrame(s, ds, cells, vars, saved, below, rest, loops)
    ensures InFrame(s.(rs := [l.limit, l.index, LOOP_CELL] + s.rs), ds, cells, vars, saved, below, rest, [l] + loops)
  {
    assert ([l] + loops)[1..] == loops;
    assert [l.limit, l.index, LOOP_CELL] + (LoopCells(loops) + ([s.fp - |cells|] + rest)) ==
           LoopCells([l] + loops) + ([s.fp - |cells|] + rest);
  }

  lemma {:induction false} DoMatches(sem: Sem, defs: seq<FDef>, f: nat, d: nat, b: FStmt, plus: bool, s: FState,
                                     ds: seq<int>, cells: seq<int>, vars: seq<Opt<int>>, saved: int, below: seq<int>,
                                     rest: seq<int>, loops: seq<Loop>)
    requires d < |defs| && Local(sem) && InFrame(s, ds, cells, vars, saved, below, rest, loops)
    ensures Matches(Exec(sem, defs, f, d, FDo(b, plus), s), FEval(sem, defs, f, d, FDo(b, plus), ds, vars, loops),
                    FPeak(sem, defs, f, d, FDo(b, plus), ds, vars, loops), saved, below, rest, |s.pm|, loops)
    decreases f, 1, FDo(b, plus), 0
  {
    hide InFrame, Local, XLoop, FLoop, LoopPeak, Matches;
    FrameIsSane(s, ds, cells, vars, saved, below, rest, loops);
    if |ds| < 2 {
      WrongMatches(Exec(sem, defs, f, d, FDo(b, plus), s), FPeak(sem, defs, f, d, FDo(b, plus), ds, vars, loops),
                   saved, below, rest, |s.pm|, loops);
    } else {
      var s1 := Popped(s, ds, cells, vars, saved, below, rest, loops);
      var s2 := Popped(s1, ds[1..], cells, vars, saved, below, rest, loops);
      assert ds[1..][1..] == ds[2..];
      var l := Loop(ds[1], ds[0]);
      InLoop(s2, ds[2..], cells, vars, saved, below, rest, loops, l);
      LoopMatches(sem, defs, f, d, b, plus, l, s2.(rs := [l.limit, l.index, LOOP_CELL] + s2.rs), ds[2..], cells, vars,
                  saved, below, rest, loops);
    }
  }

  /** One turn, on the machine. */
  lemma {:induction false} TurnMatches(plus: bool, l: Loop, s: FState, ds: seq<int>, cells: seq<int>,
                                       vars: seq<Opt<int>>, saved: int, below: seq<int>, rest: seq<int>,
                                       loops: seq<Loop>) returns (p: FState)
    requires InFrame(s, ds, cells, vars, saved, below, rest, [l] + loops) && TurnOf(plus, ds, l).Some?
    ensures s.sp <= |s.pm| && |s.rs| >= 3 && s.rs[0] == l.limit && s.rs[1] == l.index
    ensures plus ==> s.sp < |s.pm| && s.tos == ds[0]
    ensures p == if plus then s.(tos := s.pm[s.sp], sp := s.sp + 1) else s
    ensures var t := TurnOf(plus, ds, l).val;
            && InFrame(p.(rs := p.rs[3..]), t.ds, cells, vars, saved, below, rest, loops)
            && InFrame(p.(rs := p.rs[1 := t.loop.index]), t.ds, cells, vars, saved, below, rest, [t.loop] + loops)
  {
    FrameIsSane(s, ds, cells, vars, saved, below, rest, [l] + loops);
    p := s;
    if plus { p := Popped(s, ds, cells, vars, saved, below, rest, [l] + loops); }
    var t := TurnOf(plus, ds, l).val;
    LeaveMatches(p, t.ds, cells, vars, saved, below, rest, [l] + loops);
    assert ([l] + loops)[1..] == loops;
    InLoop(p.(rs := p.rs[3..]), t.ds, cells, vars, saved, below, rest, loops, t.loop);
    assert p.rs[1 := t.loop.index] == [t.loop.limit, t.loop.index, LOOP_CELL] + p.rs[3..];
  }

  lemma {:induction false} LoopMatches(sem: Sem, defs: seq<FDef>, f: nat, d: nat, b: FStmt, plus: bool, l: Loop,
                                       s: FState, ds: seq<int>, cells: seq<int>, vars: seq<Opt<int>>, saved: int,
                                       below: seq<int>, rest: seq<int>, loops: seq<Loop>)
    requires d < |defs| && Local(sem) && InFrame(s, ds, cells, vars, saved, below, rest, [l] + loops)
    ensures Matches(XLoop(sem, defs, f, d, b, plus, s), FLoop(sem, defs, f, d, b, plus, l, ds, vars, loops),
                    LoopPeak(sem, defs, f, d, b, plus, l, ds, vars, loops), saved, below, rest, |s.pm|, loops)
    decreases f, 1, b, 2
  {
    hide *;
    ExecMatches(sem, defs, f, d, b, s, ds, cells, vars, saved, below, rest, [l] + loops);
    FLoopIs(sem, defs, f, d, b, plus, l, ds, vars, loops);
    XLoopIs(sem, defs, f, d, b, plus, s);
    var x, r := Exec(sem, defs, f, d, b, s), FEval(sem, defs, f, d, b, ds, vars, [l] + loops);
    var p := FPeak(sem, defs, f, d, b, ds, vars, [l] + loops);
    var y, u := XLoop(sem, defs, f, d, b, plus, s), FLoop(sem, defs, f, d, b, plus, l, ds, vars, loops);
    var v := LoopPeak(sem, defs, f, d, b, plus, l, ds, vars, loops);
    if !(r.FDone? && r.how == HFell) {
      BodyEnds(x, r, p, saved, below, rest, |s.pm|, l, loops, y, u, v);
    } else if TurnOf(plus, r.ds, l).None? {
      WrongMatches(y, v, saved, below, rest, |s.pm|, loops);
    } else {
      FellOrNot(x, r, p, saved, below, rest, |s.pm|, [l] + loops);
      var t := TurnOf(plus, r.ds, l).val;
      if |below| + p > |s.pm| + 1 {
        if t.again && f > 0 {
          MaxAtLeast(p, LoopPeak(sem, defs, f - 1, d, b, plus, t.loop, t.ds, r.vars, loops));
        }
        OverMatches(y, u, v, saved, below, rest, |s.pm|, loops);
      } else {
        var cells' :| InFrame(x.s, r.ds, cells', r.vars, saved, below, rest, [l] + loops);
        var q := TurnMatches(plus, l, x.s, r.ds, cells', r.vars, saved, below, rest, loops);
        TurnIs(plus, r.ds, l);
        if !t.again {
          FellMatches(q.(rs := q.rs[3..]), t.ds, cells', r.vars, p, saved, below, rest, loops);
        } else if f == 0 {
          TimeMatches(p, saved, below, rest, |s.pm|, loops);
        } else {
          LoopMatches(sem, defs, f - 1, d, b, plus, t.loop, q.(rs := q.rs[1 := t.loop.index]), t.ds, cells', r.vars,
                      saved, below, rest, loops);
          MaxMatches(y, u, p, LoopPeak(sem, defs, f - 1, d, b, plus, t.loop, t.ds, r.vars, loops), saved, below, rest,
                     |s.pm|, loops);
        }
      }
    }
  }

  lemma {:induction false} TimeMatches(p: nat, saved: int, below: seq<int>, rest: seq<int>, n: nat, loops: seq<Loop>)
    requires |below| + p <= n + 1
    ensures Matches(XTimeout, FTimeout, p, saved, below, rest, n, loops)
  {}

  /** A turn that ends the loop before its end: by `leave`, or with the whole body. */
  lemma {:induction false} BodyEnds(x: XRes, r: FRes, p: nat, saved: int, below: seq<int>, rest: seq<int>, n: nat,
                                    l: Loop, loops: seq<Loop>, y: XRes, u: FRes, v: nat)
    requires Matches(x, r, p, saved, below, rest, n, [l] + loops) && !(r.FDone? && r.how == HFell) && v == p
    requires u == if r.FDone? && r.how == HLeft then FDone(r.ds, r.vars, HFell) else r
    requires x.XLeft? ==> y == XFell(x.s)
    requires !x.XLeft? && !x.XFell? ==> y == x
    ensures Matches(y, u, v, saved, below, rest, n, loops)
  {
    hide InFrame;
    assert ([l] + loops)[1..] == loops;
  }

  lemma {:induction false} FLoopIs(sem: Sem, defs: seq<FDef>, f: nat, d: nat, b: FStmt, plus: bool, l: Loop,
                                   ds: seq<int>, vars: seq<Opt<int>>, loops: seq<Loop>)
    requires d < |defs|
    ensures var r, p := FEval(sem, defs, f, d, b, ds, vars, [l] + loops),
                        FPeak(sem, defs, f, d, b, ds, vars, [l] + loops);
            var t := if r.FDone? then TurnOf(plus, r.ds, l) else None;
            var u := FLoop(sem, defs, f, d, b, plus, l, ds, vars, loops);
            var v := LoopPeak(sem, defs, f, d, b, plus, l, ds, vars, loops);
            if !(r.FDone? && r.how == HFell) then
              v == p && u == if r.FDone? && r.how == HLeft then FDone(r.ds, r.vars, HFell) else r
            else if t.None? then v == p && u == FWrong
            else if !t.val.again then v == p && u == FDone(t.val.ds, r.vars, HFell)
            else if f == 0 then v == p && u == FTimeout
            else
              && u == FLoop(sem, defs, f - 1, d, b, plus, t.val.loop, t.val.ds, r.vars, loops)
              && v == Max(p, LoopPeak(sem, defs, f - 1, d, b, plus, t.val.loop, t.val.ds, r.vars, loops))
  {}

  lemma {:induction false} XLoopIs(sem: Sem, defs: seq<FDef>, f: nat, d: nat, b: FStmt, plus: bool, s: FState)
    requires d < |defs|
    ensures XLoop(sem, defs, f, d, b, plus, s) ==
            var r := Exec(sem, defs, f, d, b, s);
            if r.XLeft? then XFell(r.s)
            else if !r.XFell? then r
            else if |r.s.rs| < 3 || (plus && r.s.sp >= |r.s.pm|) then XStuck
            else
              var n := if plus then r.s.tos else 1;
              var p := if plus then r.s.(tos := r.s.pm[r.s.sp], sp := r.s.sp + 1) else r.s;
              var index := Wrap(p.rs[1] + n);
              if !Continues(n, p.rs[0], index) then XFell(p.(rs := p.rs[3..]))
              else if f == 0 then XTimeout
              else XLoop(sem, defs, f - 1, d, b, plus, p.(rs := p.rs[1 := index]))
  {}

  lemma {:induction false} TurnIs(plus: bool, ds: seq<int>, l: Loop)
    requires TurnOf(plus, ds, l).Some?
    ensures plus ==> ds != []
    ensures var t, n := TurnOf(plus, ds, l).val, if plus then ds[0] else 1;
            && t.loop == Loop(l.limit, Wrap(l.index + n)) && (t.again <==> Continues(n, l.limit, t.loop.index))
            && t.ds == if plus then ds[1..] else ds
  {}

  lemma {:induction false} SeqMatches(sem: Sem, defs: seq<FDef>, f: nat, d: nat, a: FStmt, b: FStmt, s: FState,
                                      ds: seq<int>, cells: seq<int>, vars: seq<Opt<int>>, saved: int, below: seq<int>,
                                      rest: seq<int>, loops: seq<Loop>)
    requires d < |defs| && Local(sem) && InFrame(s, ds, cells, vars, saved, below, rest, loops)
    ensures Matches(Exec(sem, defs, f, d, FSeq(a, b), s), FEval(sem, defs, f, d, FSeq(a, b), ds, vars, loops),
                    FPeak(sem, defs, f, d, FSeq(a, b), ds, vars, loops), saved, below, rest, |s.pm|, loops)
    decreases f, 1, FSeq(a, b), 0
  {
    hide *;
    FrameIsSane(s, ds, cells, vars, saved, below, rest, loops);
    SeqIs(sem, defs, f, d, a, b, s, ds, vars, loops);
    ExecMatches(sem, defs, f, d, a, s, ds, cells, vars, saved, below, rest, loops);
    var x, r, p := Exec(sem, defs, f, d, a, s), FEval(sem, defs, f, d, a, ds, vars, loops),
                   FPeak(sem, defs, f, d, a, ds, vars, loops);
    var y, u := Exec(sem, defs, f, d, FSeq(a, b), s), FEval(sem, defs, f, d, FSeq(a, b), ds, vars, loops);
    if !(r.FDone? && r.how == HFell) {
      NotFellMatches(x, r, p, saved, below, rest, |s.pm|, loops, y);
    } else {
      FellOrNot(x, r, p, saved, below, rest, |s.pm|, loops);
      var q := FPeak(sem, defs, f, d, b, r.ds, r.vars, loops);
      if |below| + p > |s.pm| + 1 {
        MaxAtLeast(p, q);
        OverMatches(y, u, Max(p, q), saved, below, rest, |s.pm|, loops);
      } else {
        var cells' :| InFrame(x.s, r.ds, cells', r.vars, saved, below, rest, loops);
        ExecMatches(sem, defs, f, d, b, x.s, r.ds, cells', r.vars, saved, below, rest, loops);
        MaxMatches(y, u, p, q, saved, below, rest, |s.pm|, loops);
      }
    }
  }

  lemma {:induction false} SeqIs(sem: Sem, defs: seq<FDef>, f: nat, d: nat, a: FStmt, b: FStmt, s: FState, ds: seq<int>,
                                 vars: seq<Opt<int>>, loops: seq<Loop>)
    requires d < |defs| && s.sp <= |s.pm|
    ensures var r, p := FEval(sem, defs, f, d, a, ds, vars, loops), FPeak(sem, defs, f, d, a, ds, vars, loops);
            && FEval(sem, defs, f, d, FSeq(a, b), ds, vars, loops) ==
               (if r.FDone? && r.how == HFell then FEval(sem, defs, f, d, b, r.ds, r.vars, loops) else r)
            && FPeak(sem, defs, f, d, FSeq(a, b), ds, vars, loops) ==
               (if r.FDone? && r.how == HFell then Max(p, FPeak(sem, defs, f, d, b, r.ds, r.vars, loops)) else p)
    ensures Exec(sem, defs, f, d, FSeq(a, b), s) ==
            var x := Exec(sem, defs, f, d, a, s); if x.XFell? then Exec(sem, defs, f, d, b, x.s) else x
  {}

  lemma {:induction false} WhileMatches(sem: Sem, defs: seq<FDef>, f: nat, d: nat, t: FStmt, b: FStmt, s: FState,
                                        ds: seq<int>, cells: seq<int>, vars: seq<Opt<int>>, saved: int, below: seq<int>,
                                        rest: seq<int>, loops: seq<Loop>)
    requires d < |defs| && Local(sem) && InFrame(s, ds, cells, vars, saved, below, rest, loops)
    ensures Matches(Exec(sem, defs, f, d, FWhile(t, b), s), FEval(sem, defs, f, d, FWhile(t, b), ds, vars, loops),
                    FPeak(sem, defs, f, d, FWhile(t, b), ds, vars, loops), saved, below, rest, |s.pm|, loops)
    decreases f, 1, FWhile(t, b), 0
  {
    hide *;
    FrameIsSane(s, ds, cells, vars, saved, below, rest, loops);
    WhileIs(sem, defs, f, d, t, b, ds, vars, loops);
    WhilePeak(sem, defs, f, d, t, b, ds, vars, loops);
    WhileRuns(sem, defs, f, d, t, b, s);
    ExecMatches(sem, defs, f, d, t, s, ds, cells, vars, saved, below, rest, loops);
    var x, r, p := Exec(sem, defs, f, d, t, s), FEval(sem, defs, f, d, t, ds, vars, loops),
      FPeak(sem, defs, f, d, t, ds, vars, loops);
    var y, u, v := Exec(sem, defs, f, d, FWhile(t, b), s), FEval(sem, defs, f, d, FWhile(t, b), ds, vars, loops),
                   FPeak(sem, defs, f, d, FWhile(t, b), ds, vars, loops);
    if !(r.FDone? && r.how == HFell) {
      NotFellMatches(x, r, p, saved, below, rest, |s.pm|, loops, y);
    } else {
      FellOrNot(x, r, p, saved, below, rest, |s.pm|, loops);
      if r.ds == [] {
        WrongMatches(y, v, saved, below, rest, |s.pm|, loops);
      } else if |below| + p > |s.pm| + 1 {
        MaxAtLeast(p, RepeatPeak(sem, defs, f, d, t, b, r.ds[1..], r.vars, loops));
        OverMatches(y, u, v, saved, below, rest, |s.pm|, loops);
      } else {
        var cells1 :| InFrame(x.s, r.ds, cells1, r.vars, saved, below, rest, loops);
        var q := Popped(x.s, r.ds, cells1, r.vars, saved, below, rest, loops);
        if r.ds[0] != 0 {
          RepeatMatches(sem, defs, f, d, t, b, q, r.ds[1..], cells1, r.vars, saved, below, rest, loops);
          MaxMatches(y, u, p, RepeatPeak(sem, defs, f, d, t, b, r.ds[1..], r.vars, loops), saved, below, rest, |s.pm|,
                     loops);
        } else {
          FellMatches(q, r.ds[1..], cells1, r.vars, p, saved, below, rest, loops);
        }
      }
    }
  }

  lemma {:induction false} FellOrNot(x: XRes, r: FRes, p: nat, saved: int, below: seq<int>, rest: seq<int>, n: nat,
                                     loops: seq<Loop>)
    requires Matches(x, r, p, saved, below, rest, n, loops) && r.FDone? && r.how == HFell
    ensures if |below| + p > n + 1 then x.XOverflow?
            else x.XFell? && |x.s.pm| == n && exists cells ::
              InFrame(x.s, r.ds, cells, r.vars, saved, below, rest, loops)
  {}

  lemma {:induction false} NotFellMatches(x: XRes, r: FRes, p: nat, saved: int, below: seq<int>, rest: seq<int>, n: nat,
                                          loops: seq<Loop>, y: XRes)
    requires Matches(x, r, p, saved, below, rest, n, loops) && !(r.FDone? && r.how == HFell)
    requires !x.XFell? ==> y == x
    ensures Matches(y, r, p, saved, below, rest, n, loops)
  {
    hide InFrame;
  }

  lemma {:induction false} WrongMatches(x: XRes, p: nat, saved: int, below: seq<int>, rest: seq<int>, n: nat,
                                        loops: seq<Loop>)
    ensures Matches(x, FWrong, p, saved, below, rest, n, loops)
  {}

  lemma {:induction false} OverMatches(x: XRes, r: FRes, p: nat, saved: int, below: seq<int>, rest: seq<int>, n: nat,
                                       loops: seq<Loop>)
    requires x.XOverflow? && |below| + p > n + 1
    ensures Matches(x, r, p, saved, below, rest, n, loops)
  {}

  lemma {:induction false} MaxMatches(x: XRes, r: FRes, p: nat, q: nat, saved: int, below: seq<int>, rest: seq<int>,
                                      n: nat, loops: seq<Loop>)
    requires |below| + p <= n + 1 && Matches(x, r, q, saved, below, rest, n, loops)
    ensures Matches(x, r, Max(p, q), saved, below, rest, n, loops)
  {}

  lemma {:induction false} FellMatches(s: FState, ds: seq<int>, cells: seq<int>, vars: seq<Opt<int>>, p: nat,
                                       saved: int, below: seq<int>, rest: seq<int>, loops: seq<Loop>)
    requires InFrame(s, ds, cells, vars, saved, below, rest, loops) && |below| + p <= |s.pm| + 1
    ensures Matches(XFell(s), FDone(ds, vars, HFell), p, saved, below, rest, |s.pm|, loops)
  {}

  lemma {:induction false} WhileIs(sem: Sem, defs: seq<FDef>, f: nat, d: nat, t: FStmt, b: FStmt, ds: seq<int>,
                                   vars: seq<Opt<int>>, loops: seq<Loop>)
    requires d < |defs|
    ensures FEval(sem, defs, f, d, FWhile(t, b), ds, vars, loops) ==
            var r := FEval(sem, defs, f, d, t, ds, vars, loops);
            if !(r.FDone? && r.how == HFell) then r
            else if r.ds == [] then FWrong
            else if r.ds[0] == 0 then FDone(r.ds[1..], r.vars, HFell)
            else FRepeat(sem, defs, f, d, t, b, r.ds[1..], r.vars, loops)
  {}

  lemma {:induction false} WhilePeak(sem: Sem, defs: seq<FDef>, f: nat, d: nat, t: FStmt, b: FStmt, ds: seq<int>,
                                     vars: seq<Opt<int>>, loops: seq<Loop>)
    requires d < |defs|
    ensures FPeak(sem, defs, f, d, FWhile(t, b), ds, vars, loops) ==
            var r, p := FEval(sem, defs, f, d, t, ds, vars, loops), FPeak(sem, defs, f, d, t, ds, vars, loops);
            if !(r.FDone? && r.how == HFell) || r.ds == [] || r.ds[0] == 0 then p
            else Max(p, RepeatPeak(sem, defs, f, d, t, b, r.ds[1..], r.vars, loops))
  {}

  lemma {:induction false} WhileRuns(sem: Sem, defs: seq<FDef>, f: nat, d: nat, t: FStmt, b: FStmt, s: FState)
    requires d < |defs| && s.sp <= |s.pm|
    ensures Exec(sem, defs, f, d, FWhile(t, b), s) ==
            var x := Exec(sem, defs, f, d, t, s);
            if !x.XFell? then x
            else if x.s.sp >= |x.s.pm| then XStuck
            else
              var q := x.s.(tos := x.s.pm[x.s.sp], sp := x.s.sp + 1);
              if x.s.tos == 0 then XFell(q) else XRepeat(sem, defs, f, d, t, b, q)
  {}

  lemma {:induction false} MaxAtLeast(p: nat, q: nat)
    ensures Max(p, q) >= p
  {}

  /** The body of a `while` loop and what follows it: meaning, execution and peak. */
  function FRepeat(sem: Sem, defs: seq<FDef>, f: nat, d: nat, t: FStmt, b: FStmt, ds: seq<int>,
                   vars: seq<Opt<int>>, loops: seq<Loop>): FRes
    requires d < |defs|
  {
    var r := FEval(sem, defs, f, d, b, ds, vars, loops);
    if !(r.FDone? && r.how == HFell) then r
    else if f == 0 then FTimeout
    else FEval(sem, defs, f - 1, d, FWhile(t, b), r.ds, r.vars, loops)
  }

  function XRepeat(sem: Sem, defs: seq<FDef>, f: nat, d: nat, t: FStmt, b: FStmt, s: FState): XRes
    requires d < |defs|
  {
    var r := Exec(sem, defs, f, d, b, s);
    if !r.XFell? then r
    else if f == 0 then XTimeout
    else Exec(sem, defs, f - 1, d, FWhile(t, b), r.s)
  }

  function RepeatPeak(sem: Sem, defs: seq<FDef>, f: nat, d: nat, t: FStmt, b: FStmt, ds: seq<int>,
                      vars: seq<Opt<int>>, loops: seq<Loop>): nat
    requires d < |defs|
  {
    var r := FEval(sem, defs, f, d, b, ds, vars, loops);
    var q := FPeak(sem, defs, f, d, b, ds, vars, loops);
    if r.FDone? && r.how == HFell &&
      f > 0 then Max(q, FPeak(sem, defs, f - 1, d, FWhile(t, b), r.ds, r.vars, loops)) else q
  }

  lemma {:induction false} RepeatMatches(sem: Sem, defs: seq<FDef>, f: nat, d: nat, t: FStmt, b: FStmt, s: FState,
                                         ds: seq<int>, cells: seq<int>, vars: seq<Opt<int>>, saved: int,
                                         below: seq<int>, rest: seq<int>, loops: seq<Loop>)
    requires d < |defs| && Local(sem) && InFrame(s, ds, cells, vars, saved, below, rest, loops)
    ensures Matches(XRepeat(sem, defs, f, d, t, b, s), FRepeat(sem, defs, f, d, t, b, ds, vars, loops),
                    RepeatPeak(sem, defs, f, d, t, b, ds, vars, loops), saved, below, rest, |s.pm|, loops)
    decreases f, 1, b, 2
  {
    hide InFrame, Local, FEval, Exec, FPeak;
    ExecMatches(sem, defs, f, d, b, s, ds, cells, vars, saved, below, rest, loops);
    var x, r := Exec(sem, defs, f, d, b, s), FEval(sem, defs, f, d, b, ds, vars, loops);
    if x.XFell? && r.FDone? && r.how == HFell && f > 0 {
      var cells' :| InFrame(x.s, r.ds, cells', r.vars, saved, below, rest, loops);
      ExecMatches(sem, defs, f - 1, d, FWhile(t, b), x.s, r.ds, cells', r.vars, saved, below, rest, loops);
    }
  }

  lemma {:induction false} FrameIsSane(s: FState, ds: seq<int>, cells: seq<int>, vars: seq<Opt<int>>, saved: int,
                    below: seq<int>, rest: seq<int>, loops: seq<Loop>)
    requires InFrame(s, ds, cells, vars, saved, below, rest, loops)
    ensures s.sp <= |s.pm| && |below| <= |s.pm|
  {
    assert |Ds(s)| == |ds| + 1 + |cells| + |below|;
  }

  lemma {:induction false} Popped(s: FState, ds: seq<int>, cells: seq<int>, vars: seq<Opt<int>>, saved: int,
               below: seq<int>, rest: seq<int>, loops: seq<Loop>) returns (s': FState)
    requires InFrame(s, ds, cells, vars, saved, below, rest, loops) && ds != []
    ensures s.tos == ds[0] && s.sp < |s.pm| && s' == s.(tos := s.pm[s.sp], sp := s.sp + 1)
    ensures InFrame(s', ds[1..], cells, vars, saved, below, rest, loops)
  {
    assert s.tos == Ds(s)[0] == ds[0];
    assert |Ds(s)| > 1;
    assert Ds(s)[1..] == ds[1..] + ([saved] + cells + below);
    s' := s.(tos := s.pm[s.sp], sp := s.sp + 1);
    assert Ds(s') == Ds(s)[1..];
    OperandsChange(s, s', ds, ds[1..], cells, vars, saved, below, rest, loops);
  }

  lemma {:induction false} PushMatches(s: FState, x: int, ds: seq<int>, cells: seq<int>, vars: seq<Opt<int>>,
                                       saved: int, below: seq<int>, rest: seq<int>, loops: seq<Loop>)
    requires InFrame(s, ds, cells, vars, saved, below, rest, loops)
    ensures Matches(FromExit(Push(s, x)), FDone([x] + ds, vars, HFell), |ds| + 2 + |vars|, saved, below, rest, |s.pm|,
                    loops)
  {
    assert |Ds(s)| == |ds| + 1 + |vars| + |below|;
    if Push(s, x).Ok? {
      PushDs(s, x);
      assert [x] + (ds + [saved] + cells + below) == [x] + ds + ([saved] + cells + below);
      OperandsChange(s, Push(s, x).val, ds, [x] + ds, cells, vars, saved, below, rest, loops);
    }
  }

  lemma {:induction false} PlainMatches(sem: Sem, id: nat, s: FState, ds: seq<int>, cells: seq<int>,
                                        vars: seq<Opt<int>>, saved: int, below: seq<int>, rest: seq<int>,
                                        loops: seq<Loop>)
    requires Local(sem) && InFrame(s, ds, cells, vars, saved, below, rest, loops)
    ensures sem(id, ds).Some? ==>
              Matches(Plain(sem, id, s), FDone(sem(id, ds).val, vars, HFell), |sem(id, ds).val| + 1 + |vars|,
                      saved, below, rest, |s.pm|, loops)
  {
    var under := [saved] + cells + below;
    assert Ds(s) == ds + under;
    if sem(id, ds).Some? {
      var r := sem(id, ds).val;
      assert sem(id, ds + under) == Some(r + under);
      var x := Plain(sem, id, s);
      if x.XFell? {
        assert Ds(x.s) == r + under;
        OperandsChange(s, x.s, ds, r, cells, vars, saved, below, rest, loops);
      }
    }
  }

  /** Local `k` lives at `fp - k`. */
  lemma {:induction false} LocalCell(s: FState, ds: seq<int>, cells: seq<int>, vars: seq<Opt<int>>, saved: int,
                  below: seq<int>, rest: seq<int>, k: nat, loops: seq<Loop>)
    requires InFrame(s, ds, cells, vars, saved, below, rest, loops) && 1 <= k <= |vars|
    ensures s.sp <= s.fp - k < |s.pm| && s.pm[s.fp - k] == cells[|cells| - k]
    ensures vars[k - 1].Some? ==> s.pm[s.fp - k] == vars[k - 1].val
  {
    assert |Ds(s)| == |ds| + 1 + |cells| + |below|;
    assert s.pm[s.fp - k] == Ds(s)[s.fp - k - s.sp + 1];
    assert Ds(s)[|ds| + 1 + |cells| - k] == cells[|cells| - k];
  }

  lemma {:induction false} StoreMatches(s: FState, ds: seq<int>, cells: seq<int>, vars: seq<Opt<int>>, saved: int,
                     below: seq<int>, rest: seq<int>, k: nat, loops: seq<Loop>)
    requires InFrame(s, ds, cells, vars, saved, below, rest, loops) && 1 <= k <= |vars| && ds != []
    ensures s.sp < |s.pm| && 0 <= s.fp - k < |s.pm|
    ensures Matches(XFell(LocalStore(s, k)), FDone(ds[1..], vars[k - 1 := Some(ds[0])], HFell), 0, saved, below, rest,
                    |s.pm|, loops)
  {
    assert |cells| == |vars|;
    hide Holds;
    LocalCell(s, ds, cells, vars, saved, below, rest, k, loops);
    var s' := LocalStore(s, k);
    var cells' := cells[|cells| - k := ds[0]];
    var at := s.fp - k - s.sp;
    assert |Ds(s)| == |ds| + 1 + |cells| + |below|;
    assert s.tos == Ds(s)[0] == ds[0];
    assert Ds(s') == Ds(s)[1..][at := ds[0]] && s'.rs == s.rs && s'.fp == s.fp && |s'.pm| == |s.pm|;
    PokeCell(ds[1..], saved, cells, below, at, |cells| - k, ds[0]);
    assert Ds(s)[1..] == ds[1..] + [saved] + cells + below;
    StillHolds(cells, vars, k, ds[0]);
    hide Ds, LocalStore;
    FellInFrame(s', ds[1..], cells', vars[k - 1 := Some(ds[0])], saved, below, rest, loops);
  }

  lemma {:induction false} FellInFrame(s: FState, ds: seq<int>, cells: seq<int>, vars: seq<Opt<int>>, saved: int,
                                       below: seq<int>, rest: seq<int>, loops: seq<Loop>)
    requires Sane(s) && Holds(cells, vars) && below != [] && Ds(s) == ds + [saved] + cells + below
    requires s.fp == |s.pm| - |below| && s.rs == LoopCells(loops) + ([s.fp - |cells|] + rest)
    ensures Matches(XFell(s), FDone(ds, vars, HFell), 0, saved, below, rest, |s.pm|, loops)
  {
    assert InFrame(s, ds, cells, vars, saved, below, rest, loops);
  }

  lemma {:induction false} PokeCell(x: seq<int>, saved: int, cells: seq<int>, below: seq<int>, at: int, i: int, v: int)
    requires 0 <= i < |cells| && at == |x| + 1 + i
    ensures (x + [saved] + cells + below)[at := v] == x + [saved] + cells[i := v] + below
  {}

  lemma {:induction false} StillHolds(cells: seq<int>, vars: seq<Opt<int>>, k: nat, v: int)
    requires Holds(cells, vars) && 1 <= k <= |vars|
    ensures Holds(cells[|cells| - k := v], vars[k - 1 := Some(v)])
  {}

  /** What `ExecDef` does on `top` above `under`. */
  ghost predicate DefMatches(x: XRes, r: DRes, peak: nat, under: seq<int>, fp: int, rs: seq<int>, n: nat) {
    match r
    case DDone(results) =>
      if |under| + peak > n + 1 then x.XOverflow? else x.XGone? && Left(x.s, results, fp, under, rs, n)
    case DTimeout => if |under| + peak > n + 1 then x.XOverflow? else x.XTimeout?
    case DWrong => true
  }

  lemma {:induction false} LinkFits(s: FState, top: seq<int>, under: seq<int>, l: nat)
    requires Sane(s) && Ds(s) == top + under
    ensures Link(s, |top|, l).Ok? <==> |under| + 1 + |Initial(top, l)| <= |s.pm| + 1
    ensures Link(s, |top|, l).Ok? ==> |Link(s, |top|, l).val.pm| == |s.pm|
  {
    assert |Ds(s)| == |top| + |under| == |s.pm| + 1 - s.sp;
  }

  /** Frame discipline: link, body, unlink turns `top` (the arguments) over `under` into the
      results over `under` and gives back the caller's frame pointer and return stack. It
      holds at every nesting depth, recursion and tail recursion included, and memory is
      exceeded exactly when the peak does not fit. */
  lemma {:induction false} FrameDiscipline(sem: Sem, defs: seq<FDef>, f: nat, d: nat, s: FState,
                                           top: seq<int>, under: seq<int>)
    requires d < |defs| && Local(sem) && Sane(s) && |top| == defs[d].args && under != []
    requires Ds(s) == top + under
    ensures DefMatches(ExecDef(sem, defs, f, d, s), Apply(sem, defs, f, d, top), ApplyPeak(sem, defs, f, d, top),
                       under, s.fp, s.rs, |s.pm|)
    decreases f, 2
  {
    hide InFrame, Local, Link, Unlink, Initial, Exec, FEval, FPeak, Ds;
    var l := defs[d].locals;
    var e, vars := Link(s, |top|, l), Initial(top, l);
    LinkFits(s, top, under, l);
    if e.Ok? {
      var cells := LinkMakesFrame(s, top, under, l);
      ExecMatches(sem, defs, f, d, defs[d].body, e.val, [], cells, vars, s.fp, under, s.rs, []);
      var x := Exec(sem, defs, f, d, defs[d].body, e.val);
      var r := FEval(sem, defs, f, d, defs[d].body, [], vars, []);
      if x.XFell? && r.FDone? && r.how == HFell {
        var cells' :| InFrame(x.s, r.ds, cells', r.vars, s.fp, under, s.rs, []);
        UnlinkRemovesFrame(x.s, r.ds, cells', r.vars, s.fp, under, s.rs);
      } else if x.XAgain? && r.FDone? && r.how == HRestarted && f > 0 {
        AgainMatches(sem, defs, f, d, x.s, r.ds, s.fp, under, s.rs);
      }
    }
  }

  /** The next round after `tail-recurse`: what is left over of the operands goes under. */
  lemma {:induction false} AgainMatches(sem: Sem, defs: seq<FDef>, f: nat, d: nat, s: FState, ds: seq<int>,
                                        fp: int, under: seq<int>, rs: seq<int>)
    requires d < |defs| && Local(sem) && f > 0 && under != [] && Left(s, ds, fp, under, rs, |s.pm|)
    ensures var n := defs[d].args;
            |ds| >= n ==>
              DefMatches(ExecDef(sem, defs, f - 1, d, s),
                         (match Apply(sem, defs, f - 1, d, ds[..n])
                          case DDone(results) => DDone(results + ds[n..])
                          case DWrong => DWrong
                          case DTimeout => DTimeout),
                         |ds| - n + ApplyPeak(sem, defs, f - 1, d, ds[..n]), under, fp, rs, |s.pm|)
    decreases f, 1
  {
    var n := defs[d].args;
    if |ds| >= n {
      assert ds[..n] + (ds[n..] + under) == ds + under;
      FrameDiscipline(sem, defs, f - 1, d, s, ds[..n], ds[n..] + under);
      hide Exec, ExecDef, Apply, ApplyPeak, Local;
      var r := Apply(sem, defs, f - 1, d, ds[..n]);
      if r.DDone? { assert r.results + (ds[n..] + under) == r.results + ds[n..] + under; }
    }
  }

  lemma {:induction false} CallMatches(sem: Sem, defs: seq<FDef>, f: nat, d: nat, e: nat, s: FState, ds: seq<int>,
                                       cells: seq<int>, vars: seq<Opt<int>>, saved: int, below: seq<int>,
                                       rest: seq<int>, loops: seq<Loop>)
    requires d < |defs| && Local(sem) && InFrame(s, ds, cells, vars, saved, below, rest, loops)
    ensures Matches(Exec(sem, defs, f, d, FCall(e), s), FEvalCall(sem, defs, f, e, ds, vars),
                    FCallPeak(sem, defs, f, e, ds, 1 + |vars|), saved, below, rest, |s.pm|, loops)
    decreases f, 0
  {
    if e < |defs| && |ds| >= defs[e].args && f > 0 {
      var n := defs[e].args;
      var under := ds[n..] + ([saved] + cells + below);
      assert Ds(s) == ds[..n] + under;
      assert |under| == |ds| - n + 1 + |vars| + |below|;
      var s1 := s.(rs := [RETURN_ADDRESS] + s.rs);
      FrameDiscipline(sem, defs, f - 1, e, s1, ds[..n], under);
      var x := ExecDef(sem, defs, f - 1, e, s1);
      var r := Apply(sem, defs, f - 1, e, ds[..n]);
      if x.XGone? && r.DDone? {
        var s' := x.s.(rs := x.s.rs[1..]);
        assert r.results + under == r.results + ds[n..] + ([saved] + cells + below);
        OperandsChange(s, s', ds, r.results + ds[n..], cells, vars, saved, below, rest, loops);
      }
    }
  }

  // ----- tail-recurse -----

  /** The operands at the start of round `k` of a body whose earlier rounds all end with
      `tail-recurse`: the arguments over what earlier rounds have left. */
  function FRound(sem: Sem, defs: seq<FDef>, f: nat, d: nat, ds: seq<int>, k: nat): Opt<seq<int>>
    requires d < |defs|
    decreases k
  {
    var n := defs[d].args;
    if |ds| < n then None
    else if k == 0 then Some(ds)
    else
      var r := FEval(sem, defs, f, d, defs[d].body, [], Initial(ds[..n], defs[d].locals), []);
      if r.FDone? && r.how == HRestarted then FRound(sem, defs, f, d, r.ds + ds[n..], k - 1) else None
  }

  /** The most cells the first `k` rounds need over the stack below. */
  function RoundPeak(sem: Sem, defs: seq<FDef>, f: nat, d: nat, ds: seq<int>, k: nat): nat
    requires d < |defs|
    decreases k
  {
    var n := defs[d].args;
    if k == 0 || |ds| < n then 0
    else
      var vars := Initial(ds[..n], defs[d].locals);
      var r := FEval(sem, defs, f, d, defs[d].body, [], vars, []);
      var p := |ds| - n + Max(1 + |vars|, FPeak(sem, defs, f, d, defs[d].body, [], vars, []));
      if r.FDone? then Max(p, RoundPeak(sem, defs, f, d, r.ds + ds[n..], k - 1)) else p
  }

  /** The machine at the start of round `k`. */
  function XRound(sem: Sem, defs: seq<FDef>, f: nat, d: nat, s: FState, k: nat): XRes
    requires d < |defs|
    decreases k
  {
    if k == 0 then XAgain(s)
    else
      var e := Link(s, defs[d].args, defs[d].locals);
      if e.Overflow? then XOverflow
      else
        var r := Exec(sem, defs, f, d, defs[d].body, e.val);
        if r.XAgain? then XRound(sem, defs, f, d, r.s, k - 1) else r
  }

  /** One round that ends with `tail-recurse`. */
  lemma {:induction false} OneRound(sem: Sem, defs: seq<FDef>, f: nat, d: nat, s: FState, ds: seq<int>, below: seq<int>)
    requires d < |defs| && Local(sem) && Sane(s) && below != [] && Ds(s) == ds + below && |ds| >= defs[d].args
    requires var r := FEval(sem, defs, f, d, defs[d].body, [], Initial(ds[..defs[d].args], defs[d].locals), []);
             r.FDone? && r.how == HRestarted
    ensures var n := defs[d].args;
            var vars := Initial(ds[..n], defs[d].locals);
            var r, p := FEval(sem, defs, f, d, defs[d].body, [], vars, []),
              FPeak(sem, defs, f, d, defs[d].body, [], vars, []);
            var x := XRound(sem, defs, f, d, s, 1);
            if |below| + (|ds| - n + Max(1 + |vars|, p)) > |s.pm| + 1 then x.XOverflow?
            else x.XAgain? && Left(x.s, r.ds + ds[n..], s.fp, below, s.rs, |s.pm|)
  {
    var n, l := defs[d].args, defs[d].locals;
    var top, under := ds[..n], ds[n..] + below;
    assert top + under == ds + below;
    var e := Link(s, n, l);
    if e.Ok? {
      var cells := LinkMakesFrame(s, top, under, l);
      hide InFrame, Local, Link, Initial;
      ExecMatches(sem, defs, f, d, defs[d].body, e.val, [], cells, Initial(top, l), s.fp, under, s.rs, []);
      var r := FEval(sem, defs, f, d, defs[d].body, [], Initial(top, l), []);
      assert r.ds + under == r.ds + ds[n..] + below;
    }
  }

  lemma {:induction false} RoundsGo(sem: Sem, defs: seq<FDef>, f: nat, d: nat, s: FState, k: nat)
    requires d < |defs| && k > 0
    ensures var x := XRound(sem, defs, f, d, s, 1);
            XRound(sem, defs, f, d, s, k) == if x.XAgain? then XRound(sem, defs, f, d, x.s, k - 1) else x
  {}

  /** Every round starts with the caller's frame pointer and the very return stack of the
      first, its operands over the same stack below; memory is exceeded exactly when the
      largest round does not fit, however many there are. */
  lemma {:induction false} TailKeepsFrame(sem: Sem, defs: seq<FDef>, f: nat, d: nat, s: FState,
                                          ds: seq<int>, below: seq<int>, k: nat)
    requires d < |defs| && Local(sem) && Sane(s) && below != [] && Ds(s) == ds + below
    requires FRound(sem, defs, f, d, ds, k).Some?
    ensures var x := XRound(sem, defs, f, d, s, k);
            if k > 0 && |below| + RoundPeak(sem, defs, f, d, ds, k) > |s.pm| + 1 then x.XOverflow?
            else x.XAgain? && Left(x.s, FRound(sem, defs, f, d, ds, k).val, s.fp, below, s.rs, |s.pm|)
    decreases k
  {
    if k > 0 {
      OneRound(sem, defs, f, d, s, ds, below);
      RoundsGo(sem, defs, f, d, s, k);
      hide FEval, FPeak, Local, Initial, XRound;
      var x := XRound(sem, defs, f, d, s, 1);
      var n := defs[d].args;
      var r := FEval(sem, defs, f, d, defs[d].body, [], Initial(ds[..n], defs[d].locals), []);
      if x.XAgain? { TailKeepsFrame(sem, defs, f, d, x.s, r.ds + ds[n..], below, k - 1); }
    }
  }

  lemma {:induction false} MoveOne(a: seq<int>, s: nat, t: nat, top: nat, end: nat)
    requires 0 < t <= top < end <= |a| && 0 < s <= end && s - t == end - top
    ensures (a[..s] + a[t..top] + a[end..])[s - 1 := a[t - 1]] == a[..s - 1] + a[t - 1..top] + a[end..]
  {}

  // ----- the frame words on the machine's registers -----

  class FrameMachine {
    const pm: array<int>
    var tos: int
    var sp: nat
    var fp: int
    var rs: seq<int>

    ghost predicate Valid()
      reads this
    {
      sp <= pm.Length
    }

    ghost function View(): FState
      reads this, pm
    {
      FState(tos, sp, pm[..], fp, rs)
    }

    constructor (size: nat)
      ensures Valid() && fresh(pm) && pm.Length == size && sp == size && rs == []
    {
      pm := new int[size];
      tos, sp, fp, rs := 0, size, 0, [];
    }

    /** `(link)`, its two operands being `n` and `l`. */
    method Flink(n: nat, l: nat)
      requires Valid() && sp > l
      modifies this, pm
      ensures Valid() && Link(old(View()), n, l) == Ok(View())
    {
      sp := sp - 1;
      pm[sp] := tos;
      tos := fp;
      fp := sp + n;
      sp := sp - l;
      rs := [sp] + rs;
    }

    /** `(unlink)`. The move goes upwards in memory, from the high end down, so that no
        result is overwritten before it has been copied. */
    method Funlink()
      requires Valid() && Linkable(View())
      modifies this, pm
      ensures Valid() && View() == Unlink(old(View()))
    {
      var t := rs[0];
      rs := rs[1..];
      if t == sp {
        sp := fp;
        fp := tos;
        tos := pm[sp];
        sp := sp + 1;
      } else {
        t := t - 1;
        var end := fp;
        fp := pm[t];
        ghost var a := pm[..];
        var to := MoveUp(sp, t, end);
        assert a == old(View()).pm && pm[..] == Unlink(old(View())).pm;
        sp := to;
      }
    }

    /** `while (t > sp) *--s = *--t`: the cells of `low..top` end up just below `end`. */
    method MoveUp(low: nat, top: nat, end: nat) returns (s: nat)
      requires low <= top < end <= pm.Length
      modifies pm
      ensures s == end - (top - low)
      ensures pm[..] == old(pm[..])[..s] + old(pm[..])[low..top] + old(pm[..])[end..]
    {
      ghost var a := pm[..];
      s := end;
      var t := top;
      assert a == a[..end] + a[top..top] + a[end..];
      while t > low
        invariant low <= t <= top && s - t == end - top
        invariant pm[..] == a[..s] + a[t..top] + a[end..]
      {
        assert pm[..][t - 1] == a[t - 1];
        MoveOne(a, s, t, top, end);
        s := s - 1;
        t := t - 1;
        pm[s] := pm[t];
      }
    }

    method LocalFetchWord(k: nat)
      requires Valid() && sp > 0 && 0 <= fp - k < pm.Length
      modifies this, pm
      ensures Valid() && LocalFetch(old(View()), k) == Ok(View())
    {
      var x := pm[fp - k];
      sp := sp - 1;
      pm[sp] := tos;
      tos := x;
    }

    method LocalStoreWord(k: nat)
      requires Valid() && sp < pm.Length && 0 <= fp - k < pm.Length
      modifies this, pm
      ensures Valid() && View() == LocalStore(old(View()), k)
    {
      pm[fp - k] := tos;
      tos := pm[sp];
      sp := sp + 1;
    }
  }
}
