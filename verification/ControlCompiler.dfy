/** The one-pass compiler of the control words: each word appends cells at `here`, leaves
    marks and a follow-set cell on the parameter stack, and patches earlier cells. */
module ControlCompiler {
  import opened ControlSyntax

  /** Threaded-code tokens: the run-time code entries the compiler threads. */
  datatype Token =
    | Branch | QBranch | DoT | QDoT | LoopT | PlusLoopT | LitT
    | Over | Equals | Drop | IT | JT | LeaveT | Semi
    | Prim(id: nat) | Colon(d: nat)

  /** A dictionary cell holds either an entry or a plain number (offset or literal). */
  datatype Cell = Tok(t: Token) | Val(n: int)

  // Follow-set bits of src/kernel.c
  const ELSE: int := 1
  const THEN: int := 2
  const AGAIN: int := 4
  const UNTIL: int := 8
  const WHILE: int := 16
  const REPEAT: int := 32
  const LOOP: int := 64
  const PLUSLOOP: int := 128
  const OF: int := 256
  const ENDOF: int := 512
  const ENDCASE: int := 1024

  /** Where a word marked as a macro keeps the cells to copy. */
  datatype Macro = Macro(body: nat, size: nat)

  /** Compiler state. `dict` is the dictionary below `here`; `cs` the parameter stack, top
      first; `self`/`start` the entry under construction and its body address. `marked` and
      `resolved` record which forward marks were made and patched, in order. */
  datatype CState = CState(
    dict: seq<Cell>, cs: seq<int>,
    self: nat, start: nat, macros: seq<Macro>,
    marked: seq<int>, resolved: seq<int>)

  /** `Illegal` is the "illegal control structure" abort. `Wild` stands for a store or a
      copy at an address outside the dictionary, or a pop below the stack; the theorems
      show that it never happens above a flag-free base cell. */
  datatype Status = Ok(s: CState) | Illegal | Wild {
    predicate IsFailure() { !Ok? }
    function PropagateFailure(): Status requires !Ok? { this }
    function Extract(): CState requires Ok? { s }
  }

  /** C's `follow & flag` for a one-bit flag, on two's-complement cells. */
  predicate HasFlag(follow: int, flag: int)
    requires flag > 0
  {
    (follow / flag) % 2 == 1
  }

  function Thread(s: CState, t: Token): CState { s.(dict := s.dict + [Tok(t)]) }

  function Push(s: CState, x: int): CState { s.(cs := [x] + s.cs) }

  function ForwardMark(s: CState): CState {
    s.(dict := s.dict + [Val(0)], cs := [|s.dict|] + s.cs, marked := s.marked + [|s.dict|])
  }

  function BackwardMark(s: CState): CState { Push(s, |s.dict|) }

  function ForwardResolve(s: CState): Status {
    if s.cs == [] || !(0 <= s.cs[0] < |s.dict|) then Wild
    else
      var m := s.cs[0];
      Ok(s.(dict := s.dict[m := Val(|s.dict| - m)], cs := s.cs[1..], resolved := s.resolved + [m]))
  }

  function BackwardResolve(s: CState): Status {
    if s.cs == [] then Wild
    else Ok(s.(dict := s.dict + [Val(s.cs[0] - |s.dict|)], cs := s.cs[1..]))
  }

  function Swap(s: CState): Status {
    if |s.cs| < 2 then Wild else Ok(s.(cs := [s.cs[1], s.cs[0]] + s.cs[2..]))
  }

  /** `docheck`: pop the follow-set cell and look for the flag in it. */
  function Check(s: CState, flag: int): Status
    requires flag > 0
  {
    if s.cs == [] then Wild
    else if HasFlag(s.cs[0], flag) then Ok(s.(cs := s.cs[1..]))
    else Illegal
  }

  /** The `while (tos) >resolve` loop of `endcase`, with the final drop. */
  function ResolveChain(s: CState): Status
    decreases |s.cs|
  {
    if s.cs == [] then Wild
    else if s.cs[0] == 0 then Ok(s.(cs := s.cs[1..]))
    else var s1 :- ForwardResolve(s); ResolveChain(s1)
  }

  /** The effect of compiling one word. */
  function CompileWord(s: CState, w: Word): Status {
    match w
    case WPlain(id) => Ok(Thread(s, Prim(id)))
    case WLit(n) => Ok(s.(dict := s.dict + [Tok(LitT), Val(n)]))
    case WCall(d) => Ok(Thread(s, Colon(d)))
    case WMacro(d) =>
      if d < |s.macros| && s.macros[d].body + s.macros[d].size <= |s.dict| then
        var m := s.macros[d];
        Ok(s.(dict := s.dict + s.dict[m.body..m.body + m.size]))
      else Wild
    case WRecurse => Ok(Thread(s, Colon(s.self)))
    case WTailRecurse => BackwardResolve(Thread(Push(s, s.start), Branch))
    case WExit => Ok(Thread(s, Semi))
    case WI => Ok(Thread(s, IT))
    case WJ => Ok(Thread(s, JT))
    case WLeave => Ok(Thread(s, LeaveT))
    case WIf => Ok(Push(ForwardMark(Thread(s, QBranch)), ELSE + THEN))
    case WElse =>
      var s1 :- Check(s, ELSE);
      var s2 :- Swap(ForwardMark(Thread(s1, Branch)));
      var s3 :- ForwardResolve(s2);
      Ok(Push(s3, THEN))
    case WThen => var s1 :- Check(s, THEN); ForwardResolve(s1)
    case WBegin => Ok(Push(BackwardMark(s), AGAIN + UNTIL + WHILE))
    case WUntil => var s1 :- Check(s, UNTIL); BackwardResolve(Thread(s1, QBranch))
    case WWhile => var s1 :- Check(s, WHILE); Ok(Push(ForwardMark(Thread(s1, QBranch)), REPEAT))
    case WRepeat =>
      var s1 :- Check(s, REPEAT);
      var s2 :- Swap(Thread(s1, Branch));
      var s3 :- BackwardResolve(s2);
      ForwardResolve(s3)
    case WAgain => var s1 :- Check(s, AGAIN); BackwardResolve(Thread(s1, Branch))
    case WCase => Ok(Push(Push(s, 0), OF + ENDCASE))
    case WOf =>
      var s1 :- Check(s, OF);
      var s2 := ForwardMark(Thread(Thread(Thread(s1, Over), Equals), QBranch));
      Ok(Push(Thread(s2, Drop), ENDOF))
    case WEndof =>
      var s1 :- Check(s, ENDOF);
      var s2 :- Swap(ForwardMark(Thread(s1, Branch)));
      var s3 :- ForwardResolve(s2);
      Ok(Push(s3, OF + ENDCASE))
    case WEndcase => var s1 :- Check(s, ENDCASE); ResolveChain(Thread(s1, Drop))
    case WDo => Ok(Push(BackwardMark(ForwardMark(Thread(s, DoT))), LOOP + PLUSLOOP))
    case WQDo => Ok(Push(BackwardMark(ForwardMark(Thread(s, QDoT))), LOOP + PLUSLOOP))
    case WLoop =>
      var s1 :- Check(s, LOOP);
      var s2 :- BackwardResolve(Thread(s1, LoopT));
      ForwardResolve(s2)
    case WPlusLoop =>
      var s1 :- Check(s, PLUSLOOP);
      var s2 :- BackwardResolve(Thread(s1, PlusLoopT));
      ForwardResolve(s2)
  }

  /** Compiling a word sequence from left to right. */
  function CompileWords(s: CState, ws: seq<Word>): Status
    decreases |ws|
  {
    if ws == [] then Ok(s)
    else var s1 :- CompileWord(s, ws[0]); CompileWords(s1, ws[1..])
  }

  lemma {:induction false} CompileAppend(s: CState, a: seq<Word>, b: seq<Word>)
    ensures CompileWords(s, a + b) ==
            (var r := CompileWords(s, a); if r.Ok? then CompileWords(r.s, b) else r)
    decreases |a|
  {
    if a == [] {
      assert a + b == b;
    } else {
      assert (a + b)[1..] == a[1..] + b;
      var r := CompileWord(s, a[0]);
      if r.Ok? { CompileAppend(r.s, a[1..], b); }
    }
  }

  lemma {:induction false} CompileOne(s: CState, w: Word)
    ensures CompileWords(s, [w]) == CompileWord(s, w)
  {
    var r := CompileWord(s, w);
    if r.Ok? { assert CompileWords(r.s, [w][1..]) == Ok(r.s); }
  }
}
