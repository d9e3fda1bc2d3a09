/** Cooperative tasks on the kernel's registers: `resume` swaps registers through two task
    blocks, while each cached top of stack travels through its own task's stack memory. */
module Tasks {
  import opened Queues
  import S = Semaphores

  /** Everything a task finds again when it is resumed: registers and cached top of stack. */
  datatype Context = Context(tos: int, regs: Registers)

  /** A semaphore in memory: the header of its queue of waiting tasks, and its count. `m` is
      the value it stands for. */
  class Semaphore {
    const header: Node
    var count: int
    ghost var m: S.Sem<Node>

    ghost predicate Valid()
      reads this, Nodes(Queue())`succ, Nodes(Queue())`pred
    {
      m.count == count && Ring(Queue())
    }

    ghost function Queue(): seq<Node>
      reads this
    {
      [header] + m.waiting
    }

    constructor (n: int)
      ensures Valid() && m == S.NewSem(n) && fresh(header)
    {
      header := new Node(Registers(0, 0, 0, 0, 0, 0, 0));
      count := n;
      m := S.NewSem(n);
    }
  }

  class Kernel {
    const mem: array<int>           // the stacks of all tasks
    var tp: Node
    var running: bool
    var tos: int
    var regs: Registers
    ghost const owner: int -> Node  // whose stack a memory cell belongs to

    constructor (mem: array<int>, t: Node, ghost owner: int -> Node)
      requires t.status != TERMINATED && 0 < t.saved.sp <= mem.Length && owner(t.saved.sp - 1) == t
      ensures Ok({t}) && tp == t && this.mem == mem
    {
      this.mem := mem;
      this.owner := owner;
      tp, running, tos, regs := t, true, 0, t.saved;
    }

    /** Every task is live; the stack pointer of a suspended one is at a cell of its own, the
        one that holds its cached top; the running one has room to push. */
    ghost predicate Ok(tasks: set<Node>)
      reads this, tasks
    {
      && tp in tasks && 0 < regs.sp <= mem.Length && owner(regs.sp - 1) == tp
      && forall n :: n in tasks ==> n.status != TERMINATED && (n != tp ==> Parked(n.saved.sp, n))
    }

    ghost predicate Parked(sp: int, n: Node) {
      0 <= sp < mem.Length && owner(sp) == n
    }

    /** The context of a task, running or suspended. */
    ghost function ContextOf(n: Node): Context
      requires n == tp || 0 <= n.saved.sp < mem.Length
      reads this, n, mem
    {
      if n == tp then Context(tos, regs)
      else Context(mem[n.saved.sp], n.saved.(sp := n.saved.sp + 1))
    }

    /** Push the old top and `resume` task `t`: save the registers, load those of `t`, and
        pop the new top. Resuming oneself or a terminated task just pops the own top back. */
    method SwitchTo(t: Node, ghost tasks: set<Node>)
      requires Ok(tasks) && (t in tasks || t.status == TERMINATED)
      modifies this, mem, tp`saved
      ensures Ok(tasks) && tp == (if t.status == TERMINATED then old(tp) else t)
      ensures running == (old(running) && tp == old(tp))
      ensures forall n :: n in tasks ==> ContextOf(n) == old(ContextOf(n))
    {
      ghost var was := tp;
      hide Ring;
      regs := regs.(sp := regs.sp - 1);
      mem[regs.sp] := tos;
      assert forall n :: n in tasks && n != tp ==> Parked(n.saved.sp, n) && mem[n.saved.sp] == old(mem[n.saved.sp]);
      if t.status != TERMINATED && t != tp {
        tp.saved := regs;
        running := false;
        regs := t.saved;
        tp := t;
      }
      tos := mem[regs.sp];
      regs := regs.(sp := regs.sp + 1);
      assert ContextOf(was) == old(ContextOf(was));
    }

    /** `detach`: resume the successor in the ring. */
    method Detach(ghost ring: seq<Node>, ghost tasks: set<Node>)
      requires Ok(tasks) && Ring(ring) && ring[0] == tp && Nodes(ring) <= tasks
      modifies this, mem, tp`saved
      ensures Ok(tasks) && tp == (ring[1..] + [ring[0]])[0] && Ring(ring)
      ensures forall n :: n in tasks ==> ContextOf(n) == old(ContextOf(n))
    {
      FirstSucc(ring);
      assert tp.succ in Nodes(ring);
      SwitchTo(tp.succ, tasks);
    }

    /** As many detaches as there are tasks in the ring: each task gets its turn, in ring
        order, and the first is back with every register as it was. */
    method DetachRound(ghost ring: seq<Node>, ghost tasks: set<Node>) returns (visited: seq<Node>)
      requires Ok(tasks) && Ring(ring) && ring[0] == tp && Nodes(ring) <= tasks
      modifies this, mem, Nodes(ring)
      ensures Ok(tasks) && Ring(ring) && tp == old(tp) && visited == ring
      ensures tos == old(tos) && regs == old(regs)
      ensures forall n :: n in tasks ==> ContextOf(n) == old(ContextOf(n))
    {
      visited := [];
      var first := tp;
      var more := true;
      while more
        invariant |visited| <= |ring| && visited == ring[..|visited|]
        invariant Ring(ring) && tp == From(ring, |visited|)[0] && Ok(tasks)
        invariant more <==> |visited| < |ring|
        invariant forall n :: n in tasks ==> ContextOf(n) == old(ContextOf(n))
        decreases |ring| - |visited|
      {
        ghost var i := |visited|;
        visited := visited + [tp];
        FromNext(ring, i);
        Detach(From(ring, i), tasks);
        StillRing(ring, i);
        more := tp != first;
      }
      assert ContextOf(tp) == old(ContextOf(tp));
    }

    /** `deactivate`: a task of the run ring moves to the end of the queue with header `queue`,
        and the task that followed the running one is resumed, whichever was moved. So with
        nobody else runnable the running task carries on, although it is in the queue; and the
        running one's successor, deactivated, is resumed all the same. */
    method Deactivate(queue: Node, t: Node, ghost k: nat, ghost ring: seq<Node>, ghost q: seq<Node>,
                      ghost tasks: set<Node>)
      requires Ok(tasks) && Ring(ring) && ring[0] == tp && Nodes(ring) <= tasks && k < |ring| && t == ring[k]
      requires Ring(q) && q[0] == queue && Nodes(q) !! Nodes(ring)
      modifies this, mem, Nodes(ring), Nodes(q)
      ensures Ok(tasks) && Ring(q + [t]) && t.status == WAITING
      ensures |ring| >= 2 ==> Ring(From(ring, k)[1..])
      ensures tp == (if |ring| >= 2 then ring[1] else ring[0]) && running == (old(running) && |ring| == 1)
      ensures forall n :: n in tasks ==> ContextOf(n) == old(ContextOf(n))
    {
      var r := Park(queue, t, k, ring, q, tasks);
      hide Ring, From;
      assert r in Nodes(ring);
      SwitchTo(r, tasks);
    }

    /** All of `deactivate` but the switch; `r` is the task to be resumed. */
    method Park(queue: Node, t: Node, ghost k: nat, ghost ring: seq<Node>, ghost q: seq<Node>, ghost tasks: set<Node>)
      returns (r: Node)
      requires Ok(tasks) && Ring(ring) && ring[0] == tp && k < |ring| && t == ring[k]
      requires Ring(q) && q[0] == queue && Nodes(q) !! Nodes(ring)
      modifies t`status, Nodes(ring)`succ, Nodes(ring)`pred, Nodes(q)`succ, Nodes(q)`pred
      ensures Ok(tasks) && Ring(q + [t]) && t.status == WAITING && (|ring| >= 2 ==> Ring(From(ring, k)[1..]))
      ensures r == (if |ring| >= 2 then ring[1] else ring[0]) && (r == tp <==> |ring| == 1)
      ensures forall n :: n in tasks ==> ContextOf(n) == old(ContextOf(n))
    {
      hide Ring, From;
      t.status := WAITING;
      FirstSucc(ring);
      if |ring| >= 2 { OthersNext(ring); }
      r := tp.succ;
      FromNext(ring, k);
      LeaveRing(t, queue, From(ring, k), q);
    }

    /** The relinking of `deactivate`. */
    method LeaveRing(t: Node, queue: Node, ghost ring: seq<Node>, ghost q: seq<Node>)
      requires Ring(ring) && ring[0] == t
      requires Ring(q) && q[0] == queue && Nodes(q) !! Nodes(ring)
      modifies Nodes(ring)`succ, Nodes(ring)`pred, Nodes(q)`succ, Nodes(q)`pred
      ensures (|ring| >= 2 ==> Ring(ring[1..])) && Ring(q + [t])
    {
      assert t !in q by { assert t in Nodes(ring); assert forall n :: n in q ==> n in Nodes(q); }
      RingNeighbours(ring);
      RingNeighbours(q);
      Dequeue(t, ring);
      Enqueue(t, queue, q);
    }

    /** `activate`: put a task that is in no queue after the running one and switch to it. */
    method Activate(t: Node, ghost ring: seq<Node>, ghost tasks: set<Node>)
      requires Ok(tasks) && Ring(ring) && ring[0] == tp && Nodes(ring) <= tasks
      requires t in tasks && t !in ring
      modifies this, mem, t, Nodes(ring)
      ensures Ok(tasks) && Ring([t] + ring[1..] + [ring[0]]) && tp == t && t.status == RUNNING
      ensures forall n :: n in tasks ==> ContextOf(n) == old(ContextOf(n))
    {
      JoinRing(t, ring, tasks);
      hide Ok, ContextOf, Ring;
      SecondFirst(ring[0], t, ring[1..]);
      SwitchTo(tp.succ, tasks);
      SecondFirst(ring[0], t, ring[1..]);
    }

    /** The relinking of `activate`. */
    method JoinRing(t: Node, ghost ring: seq<Node>, ghost tasks: set<Node>)
      requires Ok(tasks) && Ring(ring) && ring[0] == tp
      requires t in tasks && t !in ring
      modifies t`status, t`succ, t`pred, Nodes(ring)`succ, Nodes(ring)`pred
      ensures Ok(tasks) && Ring([ring[0], t] + ring[1..]) && t.status == RUNNING
      ensures forall n :: n in tasks ==> ContextOf(n) == old(ContextOf(n))
    {
      t.status := RUNNING;
      RingNeighbours(ring);
      EnqueueAfter(t, tp, ring);
    }

    /** `wait`: with the count at zero leave the run ring for the end of the queue, else take
        a token. `after` is the run ring as it is then; it is empty exactly when the only
        runnable task had to wait, which then carries on without a token. */
    method Wait(sem: Semaphore, ghost ring: seq<Node>, ghost tasks: set<Node>) returns (ghost after: seq<Node>)
      requires Ok(tasks) && Ring(ring) && ring[0] == tp && Nodes(ring) <= tasks
      requires sem.Valid() && Nodes(sem.Queue()) !! Nodes(ring)
      modifies this, mem, Nodes(ring), Nodes(sem.Queue()), sem
      ensures sem.m == S.WaitSem(old(sem.m), ring[0]) && after == S.WaitRing(ring, old(sem.m))
      ensures sem.count == (if old(sem.count) == 0 then 0 else old(sem.count) - 1)
      ensures sem.m.waiting == old(sem.m.waiting) + (if old(sem.count) == 0 then [ring[0]] else [])
      ensures after == (if old(sem.count) == 0 then ring[1..] else ring)
      ensures Ok(tasks) && sem.Valid()
      ensures if after != [] then Ring(after) && tp == after[0] else tp == ring[0] && running == old(running)
      ensures tp == ring[0] <==> S.GoesOn(old(sem.m), ring)
      ensures forall n :: n in tasks ==> ContextOf(n) == old(ContextOf(n))
    {
      ghost var q := sem.Queue();
      if sem.count == 0 {
        sem.m := S.WaitSem(sem.m, tp);
        assert sem.Queue() == q + [ring[0]];
        after := ring[1..];
        assert From(ring, 0) == ring;
        Deactivate(sem.header, tp, 0, ring, q, tasks);
      } else {
        sem.m := S.WaitSem(sem.m, tp);
        sem.count := sem.count - 1;
        after := ring;
      }
    }

    /** `signal`: with nobody waiting add a token, else hand it to the first waiter, which is
        resumed at once. */
    method Signal(sem: Semaphore, ghost ring: seq<Node>, ghost tasks: set<Node>) returns (ghost after: seq<Node>)
      requires Ok(tasks) && Ring(ring) && ring[0] == tp && Nodes(ring) <= tasks
      requires sem.Valid() && Nodes(sem.Queue()) !! Nodes(ring) && Nodes(sem.m.waiting) <= tasks
      modifies this, mem, Nodes(ring), Nodes(sem.Queue()), sem
      ensures sem.m == S.SignalSem(old(sem.m)) && after == S.SignalRing(ring, old(sem.m))
      ensures if old(sem.m.waiting) == []
              then sem.count == old(sem.count) + 1 && sem.m.waiting == [] && after == ring
              else sem.count == old(sem.count) && sem.m.waiting == old(sem.m.waiting)[1..]
                   && after == [old(sem.m.waiting)[0]] + ring[1..] + [ring[0]]
      ensures Ok(tasks) && sem.Valid() && Ring(after) && tp == after[0]
      ensures forall n :: n in tasks ==> ContextOf(n) == old(ContextOf(n))
    {
      ghost var m := sem.m;
      var empty := EmptyQueue(sem.header, sem.Queue());
      if empty {
        assert m.waiting == [];
        sem.m := S.SignalSem(m);
        sem.count := sem.count + 1;
        after := ring;
      } else {
        Cause(sem.header, m.waiting, ring, tasks);
        after := [m.waiting[0]] + ring[1..] + [ring[0]];
        sem.m := S.SignalSem(m);
      }
    }

    /** `cause`: hand over to the first waiter, if there is one. */
    method Cause(h: Node, ghost waiting: seq<Node>, ghost ring: seq<Node>, ghost tasks: set<Node>)
      requires Ok(tasks) && Ring(ring) && ring[0] == tp && Nodes(ring) <= tasks
      requires Ring([h] + waiting) && Nodes([h] + waiting) !! Nodes(ring) && Nodes(waiting) <= tasks
      modifies this, mem, Nodes(ring), Nodes([h] + waiting)
      ensures Ok(tasks) && Ring([h] + if waiting == [] then [] else waiting[1..])
      ensures if waiting == [] then Ring(ring) && tp == old(tp) && running == old(running)
              else Ring([waiting[0]] + ring[1..] + [ring[0]]) && tp == waiting[0]
      ensures forall n :: n in tasks ==> ContextOf(n) == old(ContextOf(n))
    {
      var empty := EmptyQueue(h, [h] + waiting);
      if empty {
        assert waiting == [];
      } else {
        FirstSucc([h] + waiting);
        HandOff(h, h.succ, waiting, ring, tasks);
      }
    }

    /** `cause` with somebody waiting: dequeue the first waiter and activate it. */
    method HandOff(h: Node, t: Node, ghost waiting: seq<Node>, ghost ring: seq<Node>, ghost tasks: set<Node>)
      requires Ok(tasks) && Ring(ring) && ring[0] == tp && Nodes(ring) <= tasks
      requires waiting != [] && Ring([h] + waiting) && t == waiting[0]
      requires Nodes([h] + waiting) !! Nodes(ring) && Nodes(waiting) <= tasks
      modifies this, mem, Nodes(ring), Nodes([h] + waiting)
      ensures Ok(tasks) && Ring([h] + waiting[1..]) && Ring([t] + ring[1..] + [ring[0]]) && tp == t
      ensures forall n :: n in tasks ==> ContextOf(n) == old(ContextOf(n))
    {
      FirstIsApart(h, t, waiting, ring);
      TakeFirst(h, t, waiting);
      hide Ring;
      assert Ok(tasks) && Ring(ring);
      assert forall n :: n in tasks ==> ContextOf(n) == old(ContextOf(n));
      hide Ok, ContextOf;
      Activate(t, ring, tasks);
    }

    /** `succ dup dequeue`: take the first node out of the queue with header `h`. */
    method TakeFirst(h: Node, t: Node, ghost waiting: seq<Node>)
      requires waiting != [] && Ring([h] + waiting) && t == waiting[0]
      modifies Nodes([h] + waiting)`succ, Nodes([h] + waiting)`pred
      ensures Ring([h] + waiting[1..]) && Ring([t])
    {
      ghost var q := [h] + waiting;
      Turn(q);
      assert q[1..] + [q[0]] == waiting + [h];
      RingNeighbours(waiting + [h]);
      SameNodes(q);
      Dequeue(t, waiting + [h]);
      assert (waiting + [h])[1..] == waiting[1..] + [h];
      TurnBack(waiting[1..], h);
    }
  }

  lemma {:induction false} FirstIsApart(h: Node, t: Node, waiting: seq<Node>, ring: seq<Node>)
    requires waiting != [] && t == waiting[0] && Ring([h] + waiting)
    requires Nodes([h] + waiting) !! Nodes(ring)
    ensures t in Nodes(waiting) && t in Nodes([h] + waiting) && t !in ring
    ensures Nodes([h] + waiting[1..]) <= Nodes([h] + waiting) && t !in Nodes([h] + waiting[1..])
  {
    var q := [h] + waiting;
    assert t == q[1];
    forall n | n in ring ensures n in Nodes(ring) {}
    forall n | n in [h] + waiting[1..] ensures n in q && n != t {
      if n == h {
        assert q[0] != q[1];
      } else {
        var i :| 0 <= i < |waiting[1..]| && waiting[1..][i] == n;
        assert q[i + 2] == n && q[1] != q[i + 2];
      }
    }
  }

  lemma {:induction false} SecondFirst(q: Node, t: Node, rest: seq<Node>)
    requires Ring([q, t] + rest)
    ensures q.succ == t && Ring([t] + rest + [q])
  {
    var r := [q, t] + rest;
    FirstSucc(r);
    Rotate(r, 1);
    assert r[1..] + r[..1] == [t] + rest + [q];
  }

  lemma {:induction false} SameNodes(ring: seq<Node>)
    requires ring != []
    ensures Nodes(ring[1..] + [ring[0]]) == Nodes(ring)
  {
    assert ring == [ring[0]] + ring[1..];
  }

  /** The ring as seen from its `i`-th node. */
  ghost function From(ring: seq<Node>, i: nat): (r: seq<Node>)
    requires i <= |ring|
    ensures |r| == |ring|
  {
    ring[i..] + ring[..i]
  }

  lemma {:induction false} OthersNext(ring: seq<Node>)
    requires Ring(ring) && |ring| >= 2
    ensures ring[1] != ring[0]
  {}

  lemma {:induction false} FromNext(ring: seq<Node>, i: nat)
    requires Ring(ring) && i < |ring|
    ensures Ring(From(ring, i)) && From(ring, i)[0] == ring[i] && Nodes(From(ring, i)) == Nodes(ring)
    ensures From(ring, i)[1..] + [From(ring, i)[0]] == From(ring, i + 1)
    ensures From(ring, i + 1)[0] == ring[0] <==> i + 1 == |ring|
  {
    if i + 1 < |ring| { assert From(ring, i + 1)[0] == ring[i + 1]; }
    Rotate(ring, i);
    hide Ring;
    assert ring == ring[..i] + ring[i..];
    assert ring[..i + 1] == ring[..i] + [ring[i]];
  }

  lemma {:induction false} StillRing(ring: seq<Node>, i: nat)
    requires i < |ring| && Ring(From(ring, i))
    ensures Ring(ring)
  {
    var r := From(ring, i);
    if i > 0 {
      Rotate(r, |ring| - i);
      assert r[|ring| - i..] + r[..|ring| - i] == ring;
    } else {
      assert r == ring;
    }
  }

  lemma {:induction false} RingNeighbours(s: seq<Node>)
    requires Ring(s)
    ensures s[0] in Nodes(s) && s[0].succ in Nodes(s) && s[0].pred in Nodes(s)
  {
    FirstSucc(s);
    LastPred(s);
  }
}
