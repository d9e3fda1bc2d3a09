/** The inner interpreter on threaded code, restricted to the control primitives, literals,
    colon calls and words that only touch the parameter stack. */
module ThreadedCode {
  import opened ControlCompiler
  import opened Options
  import opened Arithmetic

  /** The effect of a plain word on the parameter stack (top first); `None` is underflow. */
  type Sem = (nat, seq<int>) -> Opt<seq<int>>

  /** A loaded program: plain-word semantics, dictionary cells, and the body address of each
      colon entry. */
  datatype Image = Image(sem: Sem, mem: seq<Cell>, entry: seq<int>)

  /** Registers: instruction pointer, parameter stack (its head is the cached top of stack)
      and return stack, both top first. */
  datatype State = State(ip: int, ds: seq<int>, rs: seq<int>)

  /** `ip + *ip`, when the cell at `p` holds an offset. */
  function Target(mem: seq<Cell>, p: int): Opt<int> {
    if 0 <= p < |mem| && mem[p].Val? then Some(p + mem[p].n) else None
  }

  function Goto(s: State, to: Opt<int>): Opt<State> {
    if to.Some? then Some(s.(ip := to.val)) else None
  }

  /** One thread of `doinner`; `None` when the machine has no defined next state. */
  function Step(w: Image, s: State): Opt<State> {
    if !(0 <= s.ip < |w.mem|) || w.mem[s.ip].Val? then None
    else
      var at := s.ip + 1;
      match w.mem[s.ip].t
      case Branch => Goto(s, Target(w.mem, at))
      case QBranch =>
        if s.ds == [] then None
        else if s.ds[0] != 0 then Some(s.(ip := at + 1, ds := s.ds[1..]))
        else Goto(s.(ds := s.ds[1..]), Target(w.mem, at))
      case DoT => if |s.ds| < 2 then None else Some(EnterLoop(s, at))
      case QDoT =>
        if |s.ds| < 2 then None
        else if s.ds[0] == s.ds[1] then Goto(s.(ds := s.ds[2..]), Target(w.mem, at))
        else Some(EnterLoop(s, at))
      case LoopT =>
        if |s.rs| < 3 then None
        else
          var index := Wrap(s.rs[1] + 1);
          if s.rs[0] > index then Goto(s.(rs := s.rs[1 := index]), Target(w.mem, at))
          else Some(s.(ip := at + 1, rs := s.rs[3..]))
      case PlusLoopT =>
        if |s.rs| < 3 || s.ds == [] then None
        else
          var d := s.ds[0];
          var index := Wrap(s.rs[1] + d);
          if Continues(d, s.rs[0], index) then
            Goto(s.(ds := s.ds[1..], rs := s.rs[1 := index]), Target(w.mem, at))
          else Some(s.(ip := at + 1, ds := s.ds[1..], rs := s.rs[3..]))
      case LitT => if 0 <= at < |w.mem| && w.mem[at].Val? then
                     Some(s.(ip := at + 1, ds := [w.mem[at].n] + s.ds)) else None
      case Over => if |s.ds| < 2 then None else Some(s.(ip := at, ds := [s.ds[1]] + s.ds))
      case Equals =>
        if |s.ds| < 2 then None
        else Some(s.(ip := at, ds := [if s.ds[1] == s.ds[0] then -1 else 0] + s.ds[2..]))
      case Drop => if s.ds == [] then None else Some(s.(ip := at, ds := s.ds[1..]))
      case IT => if |s.rs| < 2 then None else Some(s.(ip := at, ds := [s.rs[1]] + s.ds))
      case JT => if |s.rs| < 5 then None else Some(s.(ip := at, ds := [s.rs[4]] + s.ds))
      case LeaveT => if |s.rs| < 3 then None else Goto(s.(rs := s.rs[3..]), Target(w.mem, s.rs[2]))
      case Semi => if s.rs == [] then None else Some(s.(ip := s.rs[0], rs := s.rs[1..]))
      case Prim(id) =>
        var r := w.sem(id, s.ds);
        if r.Some? then Some(s.(ip := at, ds := r.val)) else None
      case Colon(d) =>
        if d < |w.entry| then Some(s.(ip := w.entry[d], rs := [at] + s.rs)) else None
  }

  /** `(do)`: push the address of the offset cell, the start index and the limit. */
  function EnterLoop(s: State, at: int): State
    requires |s.ds| >= 2
  {
    State(at + 1, s.ds[2..], [s.ds[1], s.ds[0], at] + s.rs)
  }

  /** The end test of `(+loop)`, on the index already moved by `d`. */
  predicate Continues(d: int, limit: int, index: int) {
    if d > 0 then limit > index else limit < index
  }

  /** `n` threads. */
  function Run(w: Image, n: nat, s: State): Opt<State> {
    if n == 0 then Some(s)
    else
      var r := Step(w, s);
      if r.Some? then Run(w, n - 1, r.val) else None
  }

  ghost predicate Reaches(w: Image, s: State, t: State) {
    exists n: nat :: Run(w, n, s) == Some(t)
  }

  /** The same, in at least one step. */
  ghost predicate Arrives(w: Image, s: State, t: State) {
    exists u :: Reaches(w, s, u) && Step(w, u) == Some(t)
  }

  /** The machine can take at least `f` steps. */
  ghost predicate Runs(w: Image, f: nat, s: State) {
    Run(w, f, s).Some?
  }

  lemma {:induction false} RunAdd(w: Image, m: nat, n: nat, s: State)
    ensures Run(w, m + n, s) == (var r := Run(w, m, s); if r.Some? then Run(w, n, r.val) else None)
    decreases m
  {
    if m != 0 {
      var r := Step(w, s);
      if r.Some? { RunAdd(w, m - 1, n, r.val); }
    }
  }

  lemma {:induction false} ReachSelf(w: Image, s: State)
    ensures Reaches(w, s, s)
  {
    assert Run(w, 0, s) == Some(s);
  }

  lemma {:induction false} ReachStep(w: Image, s: State, t: State, u: State)
    requires Step(w, s) == Some(t) && Reaches(w, t, u)
    ensures Reaches(w, s, u)
  {
    var n: nat :| Run(w, n, t) == Some(u);
    assert Run(w, n + 1, s) == Some(u);
  }

  lemma {:induction false} ReachOne(w: Image, s: State, t: State)
    requires Step(w, s) == Some(t)
    ensures Reaches(w, s, t)
  {
    ReachSelf(w, t);
    ReachStep(w, s, t, t);
  }

  lemma {:induction false} ReachTrans(w: Image, s: State, t: State, u: State)
    requires Reaches(w, s, t) && Reaches(w, t, u)
    ensures Reaches(w, s, u)
  {
    var m: nat :| Run(w, m, s) == Some(t);
    var n: nat :| Run(w, n, t) == Some(u);
    RunAdd(w, m, n, s);
  }

  lemma {:induction false} ArriveAfter(w: Image, s: State, t: State, v: State)
    requires Reaches(w, s, t) && Arrives(w, t, v)
    ensures Arrives(w, s, v)
  {
    var u :| Reaches(w, t, u) && Step(w, u) == Some(v);
    ReachTrans(w, s, t, u);
  }

  lemma {:induction false} RunsPrefix(w: Image, f: nat, g: nat, s: State)
    requires Runs(w, g, s) && f <= g
    ensures Runs(w, f, s)
  {
    RunAdd(w, f, g - f, s);
  }

  lemma {:induction false} RunsAfter(w: Image, f: nat, s: State, t: State)
    requires Reaches(w, s, t) && Runs(w, f, t)
    ensures Runs(w, f, s)
  {
    var n: nat :| Run(w, n, s) == Some(t);
    RunAdd(w, n, f, s);
    RunsPrefix(w, f, n + f, s);
  }

  lemma {:induction false} RunsStep(w: Image, f: nat, s: State, t: State)
    requires Step(w, s) == Some(t) && f > 0 && Runs(w, f - 1, t)
    ensures Runs(w, f, s)
  {}

  lemma {:induction false} RunsAfterStep(w: Image, f: nat, s: State, t: State, u: State)
    requires Reaches(w, s, t) && Step(w, t) == Some(u) && f > 0 && Runs(w, f - 1, u)
    ensures Runs(w, f, s)
  {
    RunsStep(w, f, t, u);
    RunsAfter(w, f, s, t);
  }
}
