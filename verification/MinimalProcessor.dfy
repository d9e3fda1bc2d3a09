/** The simulator's `processor` word on its registers and memory stacks. */
module MinimalProcessor {
  import opened Options
  import opened Cells
  import opened MinimalMachine

  /** The cached top over the stack in memory, whose last cell is what the top register held
      when the stack was empty. */
  function Parameters(tos: Cell, sp: seq<Cell>): Stack
    decreases |sp|
  {
    if sp == [] then Bottom else S(tos, Parameters(sp[0], sp[1..]))
  }

  function Returns(rp: seq<Cell>): Stack {
    if rp == [] then Bottom else S(rp[0], Returns(rp[1..]))
  }

  class Processor {
    var tos: Cell
    var ir: Cell
    var ip: Cell
    var sp: seq<Cell>                // memory stacks, top first
    var rp: seq<Cell>
    var mem: map<int, Cell>
    var cycles: nat

    ghost function Machine(): State
      reads this
    {
      State(ip, Parameters(tos, sp), Returns(rp), mem)
    }

    /** `reset-processor` and the first cycle, which calls the word to run. */
    constructor (mem: map<int, Cell>, word: Cell, restart: Cell)
      ensures Machine() == State(word, Bottom, S(Next(restart), Bottom), mem)
    {
      this.mem := mem;
      tos, sp, rp := 0, [], [Next(restart)];
      ir, ip, cycles := word, word, 1;
      new;
      assert Returns(rp[1..]) == Bottom;
    }

    /** `fetch-instruction` */
    method FetchInstruction()
      requires ip in mem
      modifies `cycles, `ir, `ip
      ensures ir == mem[old(ip)] && ip == Next(old(ip)) && cycles == old(cycles) + 1
    {
      cycles := cycles + 1;
      ir := mem[ip];
      ip := Next(ip);
    }

    /** `sp pop -> tos` */
    method Drop()
      requires sp != []
      modifies `tos, `sp
      ensures Parameters(old(tos), old(sp)) == S(old(tos), Parameters(tos, sp))
      ensures tos == old(sp)[0] && sp == old(sp)[1..]
    {
      tos := sp[0];
      sp := sp[1..];
    }

    /** One turn of the processor's loop. */
    method Cycle()
      requires Step(Machine()).Some?
      modifies this
      ensures Step(old(Machine())) == Some(Machine())
    {
      FetchInstruction();
      if ir == INC {
        tos := Plus(tos, 1);
      } else if ir == ISZERO {
        tos := Flag(tos == 0);
      } else if ir == NAND {
        assert Parameters(tos, sp).below == Parameters(sp[0], sp[1..]);
        tos := Nand(sp[0], tos);
        sp := sp[1..];
      } else if ir == TOR {
        rp := [tos] + rp;
        Drop();
      } else if ir == FROMR {
        sp := [tos] + sp;
        tos := rp[0];
        rp := rp[1..];
      } else if ir == STORE {
        assert Parameters(tos, sp).below == Parameters(sp[0], sp[1..]);
        mem := mem[tos as int := sp[0]];
        sp := sp[1..];
        Drop();
      } else if ir == FETCH {
        tos := mem[tos];
      } else if ir == EXIT {
        ip := rp[0];
        rp := rp[1..];
      } else if ir != DUMP {
        rp := [ip] + rp;
        ip := ir;
      }
    }

    /** Cycles until the return stack is empty; at most `budget` of them, and none the machine
        has no instruction for. */
    method Process(budget: nat) returns (turns: nat)
      requires forall n: nat :: n < budget && Run(n, Machine()).Some? && Run(n, Machine()).val.rs.S? ==>
               Step(Run(n, Machine()).val).Some?
      modifies this
      ensures turns <= budget && Run(turns, old(Machine())) == Some(Machine())
      ensures turns < budget ==> rp == []
    {
      turns := 0;
      while turns < budget && rp != []
        invariant turns <= budget && Run(turns, old(Machine())) == Some(Machine())
      {
        Cycle();
        turns := turns + 1;
      }
    }
  }
}
