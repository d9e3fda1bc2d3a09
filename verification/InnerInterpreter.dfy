/** The inner interpreter on its registers: the top of the parameter stack is cached in
    `tos`, both stacks grow downwards in arrays. Each primitive refines one `Step`. */
module InnerInterpreter {
  import opened ControlCompiler
  import opened ThreadedCode
  import opened Options
  import opened Arithmetic

  class Machine {
    const image: Image
    const stack: array<int>
    const ret: array<int>
    var ip: int
    var tos: int
    var sp: nat
    var rp: nat

    ghost predicate Valid()
      reads this
    {
      sp <= stack.Length && rp <= ret.Length && stack != ret
    }

    ghost function View(): State
      requires Valid()
      reads this, stack, ret
    {
      State(ip, [tos] + stack[sp..], ret[rp..])
    }

    constructor (image: Image, entry: int, params: nat, returns_: nat, top: int)
      ensures Valid() && fresh(stack) && fresh(ret) && this.image == image
      ensures stack.Length == params && ret.Length == returns_
      ensures View() == State(entry, [top], [])
    {
      this.image := image;
      stack := new int[params];
      ret := new int[returns_];
      ip, tos, sp, rp := entry, top, params, returns_;
    }

    // The stack macros of the kernel

    method Spush(x: int)
      requires Valid() && sp > 0
      modifies this`sp, this`tos, stack
      ensures Valid() && View() == old(View()).(ds := [x] + old(View()).ds)
    {
      sp := sp - 1;
      stack[sp] := tos;
      tos := x;
    }

    method Spop() returns (x: int)
      requires Valid() && sp < stack.Length
      modifies this`sp, this`tos
      ensures Valid() && x == old(View()).ds[0] && View() == old(View()).(ds := old(View()).ds[1..])
    {
      x := tos;
      tos := stack[sp];
      sp := sp + 1;
    }

    method Rpush(x: int)
      requires Valid() && rp > 0
      modifies this`rp, ret
      ensures Valid() && rp == old(rp) - 1 && View() == old(View()).(rs := [x] + old(View()).rs)
    {
      rp := rp - 1;
      ret[rp] := x;
    }

    method Rpop() returns (x: int)
      requires Valid() && rp < ret.Length
      modifies this`rp
      ensures Valid() && x == old(View()).rs[0] && View() == old(View()).(rs := old(View()).rs[1..])
    {
      x := ret[rp];
      rp := rp + 1;
    }

    /** Branch by the offset in the cell at `ip`. */
    method Fbranch()
      requires Valid() && Target(image.mem, ip).Some?
      modifies this`ip
      ensures Valid() && View() == old(View()).(ip := Target(image.mem, old(ip)).val)
    {
      ip := ip + image.mem[ip].n;
    }

    // Primitives, entered with `ip` already past the token

    method DoParenQBranch()
      requires Valid() && sp < stack.Length && (tos == 0 ==> Target(image.mem, ip).Some?)
      modifies this
      ensures Valid()
      ensures View() == old(View()).(ip := if old(tos) != 0 then old(ip) + 1 else Target(image.mem, old(ip)).val,
                                     ds := old(View()).ds[1..])
    {
      var flag := Spop();
      if flag != 0 { ip := ip + 1; } else { Fbranch(); }
    }

    method DoParenDo()
      requires Valid() && sp + 2 <= stack.Length && rp >= 3
      modifies this, ret
      ensures var s := old(View());
              Valid() && View() == State(s.ip + 1, s.ds[2..], [s.ds[1], s.ds[0], s.ip] + s.rs)
    {
      Rpush(ip);
      ip := ip + 1;
      var index := Spop();
      Rpush(index);
      var limit := Spop();
      Rpush(limit);
      assert old(View()).ds[1..][1..] == old(View()).ds[2..];
      assert [limit] + ([index] + ([old(ip)] + old(View()).rs)) == [limit, index, old(ip)] + old(View()).rs;
    }

    method DoParenQDo()
      requires Valid() && sp + 2 <= stack.Length && rp >= 3
      requires tos == stack[sp] ==> Target(image.mem, ip).Some?
      modifies this, ret
      ensures Valid()
      ensures var s := old(View());
              View() == if s.ds[0] == s.ds[1] then s.(ip := Target(image.mem, s.ip).val, ds := s.ds[2..])
                        else State(s.ip + 1, s.ds[2..], [s.ds[1], s.ds[0], s.ip] + s.rs)
    {
      if tos == stack[sp] {
        sp := sp + 1;
        tos := stack[sp];
        sp := sp + 1;
        Fbranch();
      } else {
        DoParenDo();
      }
    }

    method DoParenLoop()
      requires Valid() && rp + 3 <= ret.Length
      requires Wrap(ret[rp + 1] + 1) < ret[rp] ==> Target(image.mem, ip).Some?
      modifies this`ip, this`rp, ret
      ensures Valid()
      ensures var s := old(View());
              var index := Wrap(s.rs[1] + 1);
              View() == if s.rs[0] > index then s.(ip := Target(image.mem, s.ip).val, rs := s.rs[1 := index])
                        else s.(ip := s.ip + 1, rs := s.rs[3..])
    {
      ret[rp + 1] := Wrap(ret[rp + 1] + 1);
      if ret[rp] > ret[rp + 1] {
        Fbranch();
      } else {
        rp := rp + 3;
        ip := ip + 1;
      }
    }

    method DoParenPlusLoop()
      requires Valid() && rp + 3 <= ret.Length && sp < stack.Length
      requires var index := Wrap(ret[rp + 1] + tos);
               (if tos > 0 then index < ret[rp] else index > ret[rp]) ==> Target(image.mem, ip).Some?
      modifies this, ret
      ensures Valid()
      ensures var s := old(View());
              var index := Wrap(s.rs[1] + s.ds[0]);
              View() == if if s.ds[0] > 0 then index < s.rs[0] else index > s.rs[0]
                        then State(Target(image.mem, s.ip).val, s.ds[1..], s.rs[1 := index])
                        else State(s.ip + 1, s.ds[1..], s.rs[3..])
    {
      var d := Spop();
      ret[rp + 1] := Wrap(ret[rp + 1] + d);
      if (d > 0 && ret[rp] > ret[rp + 1]) || (d <= 0 && ret[rp] < ret[rp + 1]) {
        Fbranch();
      } else {
        rp := rp + 3;
        ip := ip + 1;
      }
    }

    method DoLeave()
      requires Valid() && rp + 3 <= ret.Length && Target(image.mem, ret[rp + 2]).Some?
      modifies this`ip, this`rp
      ensures Valid()
      ensures View() == old(View()).(ip := Target(image.mem, old(View()).rs[2]).val, rs := old(View()).rs[3..])
    {
      rp := rp + 2;
      ip := Rpop();
      Fbranch();
    }

    method DoParenLiteral()
      requires Valid() && sp > 0 && 0 <= ip < |image.mem| && image.mem[ip].Val?
      modifies this`ip, this`sp, this`tos, stack
      ensures Valid()
      ensures View() == old(View()).(ip := old(ip) + 1, ds := [image.mem[old(ip)].n] + old(View()).ds)
    {
      var x := image.mem[ip].n;
      ip := ip + 1;
      Spush(x);
    }

    method DoEquals()
      requires Valid() && sp < stack.Length
      modifies this`sp, this`tos
      ensures Valid()
      ensures var s := old(View());
              View() == s.(ds := [if s.ds[1] == s.ds[0] then -1 else 0] + s.ds[2..])
    {
      var x := Spop();
      assert old(View()).ds[2..] == stack[sp..];
      tos := if tos == x then -1 else 0;
    }

    method DoColon(d: nat)
      requires Valid() && rp > 0 && d < |image.entry|
      modifies this`ip, this`rp, ret
      ensures Valid()
      ensures View() == old(View()).(ip := image.entry[d], rs := [old(ip)] + old(View()).rs)
    {
      Rpush(ip);
      ip := image.entry[d];
    }

    /** A plain word: its new parameter stack is written back, the head into `tos`. */
    method Plain(id: nat)
      requires Valid()
      requires var r := image.sem(id, View().ds); r.Some? && 0 < |r.val| <= stack.Length + 1
      modifies this`tos, this`sp, stack
      ensures Valid() && View() == old(View()).(ds := image.sem(id, old(View()).ds).val)
    {
      var r := image.sem(id, [tos] + stack[sp..]).val;
      tos := r[0];
      sp := stack.Length + 1 - |r|;
      forall i | 0 <= i < |r| - 1 { stack[sp + i] := r[1 + i]; }
      assert stack[sp..] == r[1..];
    }

    /** Neither stack runs out of its array in the next thread, nor below its last cell. */
    ghost predicate Ready()
      requires Valid()
      reads this, stack, ret
    {
      && sp > 0 && rp >= 3
      && Step(image, View()).Some?
      && 0 < |Step(image, View()).val.ds| <= stack.Length + 1
    }

    /** One turn of `doinner`: fetch the thread at `ip` and execute it. */
    method Next()
      requires Valid() && Ready()
      modifies this, stack, ret
      ensures Valid() && Some(View()) == Step(image, old(View()))
    {
      var t := image.mem[ip].t;
      ip := ip + 1;
      match t
      case Branch => Fbranch();
      case QBranch => DoParenQBranch();
      case DoT => DoParenDo();
      case QDoT => DoParenQDo();
      case LoopT => DoParenLoop();
      case PlusLoopT => DoParenPlusLoop();
      case LitT => DoParenLiteral();
      case Over => Spush(stack[sp]);
      case Equals => DoEquals();
      case Drop => var _ := Spop();
      case IT => Spush(ret[rp + 1]);
      case JT => Spush(ret[rp + 4]);
      case LeaveT => DoLeave();
      case Semi => ip := Rpop();
      case Prim(id) => Plain(id);
      case Colon(d) => DoColon(d);
    }

    /** `doinner` for `n` threads. */
    method Inner(n: nat)
      requires Valid() && Run(image, n, View()).Some?
      requires forall k: nat, s: State :: k < n && Run(image, k, View()) == Some(s) ==> Roomy(s)
      modifies this, stack, ret
      ensures Valid() && Some(View()) == Run(image, n, old(View()))
    {
      var k := 0;
      while k < n
        invariant 0 <= k <= n && Valid()
        invariant Run(image, k, old(View())) == Some(View())
      {
        RunAdd(image, k, n - k, old(View()));
        RunAdd(image, k, 1, old(View()));
        assert Roomy(View());
        Next();
        k := k + 1;
      }
    }

    /** A state whose next thread fits the arrays. */
    ghost predicate Roomy(s: State) {
      && |s.ds| <= stack.Length && |s.rs| + 3 <= ret.Length
      && (Step(image, s).Some? ==> 0 < |Step(image, s).val.ds| <= stack.Length + 1)
    }
  }
}
