/** The control words as they run: they store into the dictionary array at `dp` and push
    and pop the parameter stack. Each is proved to do what `CompileWord` says. */
module CompilerWords {
  import opened ControlSyntax
  import opened ControlCompiler

  class Compiler {
    var dict: array<Cell>
    var dp: nat
    var cs: seq<int>
    var last: nat
    var body: nat
    var macros: seq<Macro>
    ghost var marked: seq<int>
    ghost var resolved: seq<int>

    ghost predicate Valid()
      reads this, dict
    {
      dp <= dict.Length
    }

    /** The state the specification talks about. */
    ghost function View(): CState
      requires Valid()
      reads this, dict
    {
      CState(dict[..dp], cs, last, body, macros, marked, resolved)
    }

    constructor (size: nat, base: int)
      ensures Valid() && fresh(dict) && dict.Length == size
      ensures View() == CState([], [base], 0, 0, [], [], [])
    {
      dict := new Cell[size](_ => Val(0));
      dp, cs, last, body, macros, marked, resolved := 0, [base], 0, 0, [], [], [];
    }

    /** `,` */
    method Comma(c: Cell)
      requires Valid() && dp < dict.Length
      modifies this`dp, dict
      ensures Valid() && dp == old(dp) + 1
      ensures View() == old(View()).(dict := old(View()).dict + [c])
    {
      dict[dp] := c;
      dp := dp + 1;
    }

    method ThreadToken(t: Token)
      requires Valid() && dp < dict.Length
      modifies this`dp, dict
      ensures Valid() && dp == old(dp) + 1
      ensures View() == Thread(old(View()), t)
    {
      Comma(Tok(t));
    }

    method PushCell(x: int)
      requires Valid()
      modifies this`cs
      ensures Valid() && View() == Push(old(View()), x)
    {
      cs := [x] + cs;
    }

    /** `>mark` */
    method MarkForward()
      requires Valid() && dp < dict.Length
      modifies this`dp, this`cs, this`marked, dict
      ensures Valid() && dp == old(dp) + 1
      ensures View() == ForwardMark(old(View()))
    {
      cs := [dp] + cs;
      marked := marked + [dp];
      Comma(Val(0));
    }

    /** `<mark` */
    method MarkBackward()
      requires Valid()
      modifies this`cs
      ensures Valid() && View() == BackwardMark(old(View()))
    {
      PushCell(dp);
    }

    /** `>resolve` */
    method ResolveForward()
      requires Valid() && ForwardResolve(View()).Ok?
      modifies this`cs, this`resolved, dict
      ensures Valid() && Ok(View()) == ForwardResolve(old(View()))
    {
      var m := cs[0];
      cs := cs[1..];
      dict[m] := Val(dp - m);
      resolved := resolved + [m];
    }

    /** `<resolve` */
    method ResolveBackward()
      requires Valid() && cs != [] && dp < dict.Length
      modifies this`dp, this`cs, dict
      ensures Valid() && dp == old(dp) + 1
      ensures Ok(View()) == BackwardResolve(old(View()))
    {
      var top := cs[0];
      cs := cs[1..];
      Comma(Val(top - dp));
    }

    method SwapCells()
      requires Valid() && |cs| >= 2
      modifies this`cs
      ensures Valid() && Ok(View()) == Swap(old(View()))
    {
      cs := [cs[1], cs[0]] + cs[2..];
    }

    /** `docheck`; `ok` is false when the control structure is illegal. */
    method CheckFlag(flag: int) returns (ok: bool)
      requires Valid() && cs != [] && flag > 0
      modifies this`cs
      ensures Valid()
      ensures ok ==> Ok(View()) == Check(old(View()), flag)
      ensures !ok ==> Check(old(View()), flag) == Illegal
    {
      ok := HasFlag(cs[0], flag);
      cs := cs[1..];
    }

    /** `if`, `do`, `?do`: thread the primitive, leave the mark(s) and the flags. */
    method OpenForward(w: Word)
      requires Valid() && dp + 2 <= dict.Length && (w == WIf || w == WDo || w == WQDo)
      modifies this`dp, this`cs, this`marked, dict
      ensures Valid() && Ok(View()) == CompileWord(old(View()), w)
    {
      ThreadToken(if w == WIf then QBranch else if w == WDo then DoT else QDoT);
      MarkForward();
      if w == WIf {
        PushCell(ELSE + THEN);
      } else {
        MarkBackward();
        PushCell(LOOP + PLUSLOOP);
      }
    }

    method Else() returns (ok: bool)
      requires Valid() && dp + 2 <= dict.Length && !CompileWord(View(), WElse).Wild?
      modifies this`dp, this`cs, this`marked, this`resolved, dict
      ensures Valid() && Answers(ok, CompileWord(old(View()), WElse), View())
    {
      ok := CheckFlag(ELSE);
      if ok {
        ThreadToken(Branch);
        MarkForward();
        SwapCells();
        ResolveForward();
        PushCell(THEN);
      }
    }

    method Then() returns (ok: bool)
      requires Valid() && !CompileWord(View(), WThen).Wild?
      modifies this`cs, this`resolved, dict
      ensures Valid() && Answers(ok, CompileWord(old(View()), WThen), View())
    {
      ok := CheckFlag(THEN);
      if ok { ResolveForward(); }
    }

    method Begin()
      requires Valid()
      modifies this`cs
      ensures Valid() && Ok(View()) == CompileWord(old(View()), WBegin)
    {
      MarkBackward();
      PushCell(AGAIN + UNTIL + WHILE);
    }

    /** `until` and `again` */
    method Back(w: Word) returns (ok: bool)
      requires Valid() && dp + 2 <= dict.Length && (w == WUntil || w == WAgain)
      requires !CompileWord(View(), w).Wild?
      modifies this`dp, this`cs, dict
      ensures Valid() && Answers(ok, CompileWord(old(View()), w), View())
    {
      ok := CheckFlag(if w == WUntil then UNTIL else AGAIN);
      if ok {
        ThreadToken(if w == WUntil then QBranch else Branch);
        ResolveBackward();
      }
    }

    method While() returns (ok: bool)
      requires Valid() && dp + 2 <= dict.Length && !CompileWord(View(), WWhile).Wild?
      modifies this`dp, this`cs, this`marked, dict
      ensures Valid() && Answers(ok, CompileWord(old(View()), WWhile), View())
    {
      ok := CheckFlag(WHILE);
      if ok {
        ThreadToken(QBranch);
        MarkForward();
        PushCell(REPEAT);
      }
    }

    method Repeat() returns (ok: bool)
      requires Valid() && dp + 2 <= dict.Length && !CompileWord(View(), WRepeat).Wild?
      modifies this`dp, this`cs, this`resolved, dict
      ensures Valid() && Answers(ok, CompileWord(old(View()), WRepeat), View())
    {
      ok := CheckFlag(REPEAT);
      if ok {
        ThreadToken(Branch);
        SwapCells();
        ResolveBackward();
        ResolveForward();
      }
    }

    method Case()
      requires Valid()
      modifies this`cs
      ensures Valid() && Ok(View()) == CompileWord(old(View()), WCase)
    {
      PushCell(0);
      PushCell(OF + ENDCASE);
    }

    method Of() returns (ok: bool)
      requires Valid() && dp + 5 <= dict.Length && !CompileWord(View(), WOf).Wild?
      modifies this`dp, this`cs, this`marked, dict
      ensures Valid() && Answers(ok, CompileWord(old(View()), WOf), View())
    {
      ok := CheckFlag(OF);
      if ok {
        ThreadToken(Over);
        ThreadToken(Equals);
        ThreadToken(QBranch);
        MarkForward();
        ThreadToken(Drop);
        PushCell(ENDOF);
      }
    }

    method Endof() returns (ok: bool)
      requires Valid() && dp + 2 <= dict.Length && !CompileWord(View(), WEndof).Wild?
      modifies this`dp, this`cs, this`marked, this`resolved, dict
      ensures Valid() && Answers(ok, CompileWord(old(View()), WEndof), View())
    {
      ok := CheckFlag(ENDOF);
      if ok {
        ThreadToken(Branch);
        MarkForward();
        SwapCells();
        ResolveForward();
        PushCell(OF + ENDCASE);
      }
    }

    /** `endcase`: resolve the chain of `endof` marks down to the zero that `case` left. */
    method Endcase() returns (ok: bool)
      requires Valid() && dp < dict.Length && !CompileWord(View(), WEndcase).Wild?
      modifies this`dp, this`cs, this`resolved, dict
      ensures Valid() && Answers(ok, CompileWord(old(View()), WEndcase), View())
    {
      ok := CheckFlag(ENDCASE);
      if ok {
        ThreadToken(Drop);
        ghost var goal := ResolveChain(View());
        ChainIsOkOrWild(View());
        while cs[0] != 0
          invariant Valid() && dp == old(dp) + 1
          invariant ResolveChain(View()) == goal && goal.Ok?
          decreases |cs|
        {
          ResolveForward();
        }
        cs := cs[1..];
      }
    }

    /** `loop` and `+loop` */
    method Loop(w: Word) returns (ok: bool)
      requires Valid() && dp + 2 <= dict.Length && (w == WLoop || w == WPlusLoop)
      requires !CompileWord(View(), w).Wild?
      modifies this`dp, this`cs, this`resolved, dict
      ensures Valid() && Answers(ok, CompileWord(old(View()), w), View())
    {
      ok := CheckFlag(if w == WLoop then LOOP else PLUSLOOP);
      if ok {
        ThreadToken(if w == WLoop then LoopT else PlusLoopT);
        ResolveBackward();
        ResolveForward();
      }
    }

    /** `tail-recurse` in a definition without an argument frame. */
    method TailRecurse()
      requires Valid() && dp + 2 <= dict.Length
      modifies this`dp, this`cs, dict
      ensures Valid() && Ok(View()) == CompileWord(old(View()), WTailRecurse)
    {
      PushCell(body);
      ThreadToken(Branch);
      ResolveBackward();
    }

    /** A macro word met while compiling: `allot` room at `here` and `cmove` the body there. */
    method CopyMacro(d: nat)
      requires Valid() && CompileWord(View(), WMacro(d)).Ok? && dp + macros[d].size <= dict.Length
      modifies this`dp, dict
      ensures Valid() && Ok(View()) == CompileWord(old(View()), WMacro(d))
    {
      var from, size := macros[d].body, macros[d].size;
      var to := dp;
      dp := dp + size;
      Cmove(from, to, size);
      assert old(dict[from..from + size]) == old(dict[..dp])[from..from + size];
      assert dict[..dp] == dict[..to] + dict[to..to + size];
    }

    /** `cmove` of `n` cells, from low addresses up, to a place above the source. */
    method Cmove(from: nat, to: nat, n: nat)
      requires from + n <= to && to + n <= dict.Length
      modifies dict
      ensures dict[..to] == old(dict[..to]) && dict[to..to + n] == old(dict[from..from + n])
    {
      var i := 0;
      while i < n
        invariant 0 <= i <= n
        invariant dict[..to] == old(dict[..to])
        invariant dict[to..to + i] == old(dict[from..from + i])
      {
        assert dict[..to][from + i] == old(dict[..to])[from + i];
        dict[to + i] := dict[from + i];
        i := i + 1;
      }
    }

    /** The outer interpreter handing one source word to the compiler. */
    method Compile(w: Word) returns (ok: bool)
      requires Valid() && dp + Room(macros, w) <= dict.Length && !CompileWord(View(), w).Wild?
      modifies this, dict
      ensures Valid() && dict == old(dict) && macros == old(macros)
      ensures Answers(ok, CompileWord(old(View()), w), View())
    {
      ok := true;
      match w
      case WPlain(id) => ThreadToken(Prim(id));
      case WLit(n) => ThreadToken(LitT); Comma(Val(n));
      case WCall(d) => ThreadToken(Colon(d));
      case WMacro(d) => CopyMacro(d);
      case WRecurse => ThreadToken(Colon(last));
      case WTailRecurse => TailRecurse();
      case WExit => ThreadToken(Semi);
      case WI => ThreadToken(IT);
      case WJ => ThreadToken(JT);
      case WLeave => ThreadToken(LeaveT);
      case WIf => OpenForward(w);
      case WElse => ok := Else();
      case WThen => ok := Then();
      case WBegin => Begin();
      case WUntil => ok := Back(w);
      case WWhile => ok := While();
      case WRepeat => ok := Repeat();
      case WAgain => ok := Back(w);
      case WCase => Case();
      case WOf => ok := Of();
      case WEndof => ok := Endof();
      case WEndcase => ok := Endcase();
      case WDo => OpenForward(w);
      case WQDo => OpenForward(w);
      case WLoop => ok := Loop(w);
      case WPlusLoop => ok := Loop(w);
    }

    /** Compile a source word by word until its end or the first illegal structure. */
    method CompileSource(ws: seq<Word>) returns (ok: bool)
      requires Valid() && dp + RoomFor(macros, ws) <= dict.Length && !CompileWords(View(), ws).Wild?
      modifies this, dict
      ensures Valid() && Answers(ok, CompileWords(old(View()), ws), View())
    {
      ok := true;
      var i := 0;
      ghost var goal := CompileWords(View(), ws);
      while i < |ws| && ok
        invariant 0 <= i <= |ws| && Valid() && dict == old(dict) && macros == old(macros)
        invariant ok ==> CompileWords(View(), ws[i..]) == goal && dp + RoomFor(macros, ws[i..]) <= dict.Length
        invariant !ok ==> goal == Illegal
        decreases |ws| - i
      {
        assert ws[i..][1..] == ws[i + 1..];
        ghost var before := View();
        ok := Compile(ws[i]);
        if ok { DictGrowth(before, ws[i]); }
        i := i + 1;
      }
    }
  }

  /** The method's answer agrees with the specification. */
  ghost predicate Answers(ok: bool, r: Status, now: CState) {
    if ok then r == Ok(now) else r == Illegal
  }

  /** How much dictionary room a word needs: at most five cells, or the copied body. */
  ghost function Room(macros: seq<Macro>, w: Word): nat {
    if w.WMacro? then (if w.d < |macros| then macros[w.d].size else 0) else 5
  }

  ghost function RoomFor(macros: seq<Macro>, ws: seq<Word>): nat {
    if ws == [] then 0 else Room(macros, ws[0]) + RoomFor(macros, ws[1..])
  }

  lemma {:induction false} ChainIsOkOrWild(s: CState)
    ensures var r := ResolveChain(s); r.Wild? || (r.Ok? && |r.s.dict| == |s.dict|)
    decreases |s.cs|
  {
    if s.cs != [] && s.cs[0] != 0 && ForwardResolve(s).Ok? {
      ChainIsOkOrWild(ForwardResolve(s).s);
    }
  }

  /** A word never grows the dictionary by more than its room. */
  lemma {:induction false} DictGrowth(s: CState, w: Word)
    requires CompileWord(s, w).Ok?
    ensures |CompileWord(s, w).s.dict| <= |s.dict| + Room(s.macros, w)
  {
    if w.WEndcase? {
      hide ResolveChain;
      ChainIsOkOrWild(Thread(Check(s, ENDCASE).s, Drop));
    } else if IsAtom(w) {
      hide ResolveChain;
    } else {
      StructureGrowth(s, w);
    }
  }

  lemma {:induction false} StructureGrowth(s: CState, w: Word)
    requires CompileWord(s, w).Ok? && !w.WEndcase? && !IsAtom(w)
    ensures |CompileWord(s, w).s.dict| <= |s.dict| + 5
  {
    hide ResolveChain, HasFlag, Room;
  }
}
