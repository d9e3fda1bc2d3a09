/** Semaphores over the run ring, as a state machine: `signal` hands its token to the first
    waiter and switches to it, `wait` takes a token or leaves the run ring. */
module Semaphores {

  /** One semaphore. The last five fields are its history: initial count, signals given,
      waits granted, and the tasks that blocked and that were woken, in order. */
  datatype Sem<T> = Sem(count: int, waiting: seq<T>,
                        initial: int, signals: nat, granted: nat, blocked: seq<T>, woken: seq<T>)

  function NewSem<T>(n: int): Sem<T> { Sem(n, [], n, 0, 0, [], []) }

  /** The run ring starts with the running task. */
  datatype System<T> = System(ring: seq<T>, sems: seq<Sem<T>>)

  datatype Op = Signal(i: nat) | Wait(i: nat) | Detach

  /** `signal`: a waiter, if there is one, is put after the running task and resumed. */
  function SignalSem<T>(m: Sem<T>): Sem<T> {
    if m.waiting == [] then m.(count := m.count + 1, signals := m.signals + 1)
    else m.(waiting := m.waiting[1..], signals := m.signals + 1, granted := m.granted + 1,
            woken := m.woken + [m.waiting[0]])
  }

  function SignalRing<T>(ring: seq<T>, m: Sem<T>): seq<T>
    requires ring != []
  {
    if m.waiting == [] then ring else [m.waiting[0]] + ring[1..] + [ring[0]]
  }

  /** `wait` by task `t`: with the count at zero it goes to the end of the queue. */
  function WaitSem<T>(m: Sem<T>, t: T): Sem<T> {
    if m.count == 0 then m.(waiting := m.waiting + [t], blocked := m.blocked + [t])
    else m.(count := m.count - 1, granted := m.granted + 1)
  }

  function WaitRing<T>(ring: seq<T>, m: Sem<T>): seq<T>
    requires ring != []
  {
    if m.count == 0 then ring[1..] else ring
  }

  /** The caller of `wait` goes on: with a token, or without one when no other task is
      runnable. */
  predicate GoesOn<T>(m: Sem<T>, ring: seq<T>) { m.count != 0 || |ring| < 2 }

  predicate Known<T>(s: System<T>, op: Op) { op.Signal? || op.Wait? ==> op.i < |s.sems| }

  /** A `wait` that would have to block the only runnable task. */
  predicate Lone<T>(s: System<T>, op: Op)
    requires Known(s, op)
  {
    op.Wait? && s.sems[op.i].count == 0 && |s.ring| < 2
  }

  predicate Enabled<T>(s: System<T>, op: Op) { Known(s, op) && !Lone(s, op) }

  /** An operation of the running task. */
  function Step<T>(s: System<T>, op: Op): System<T>
    requires s.ring != [] && Enabled(s, op)
  {
    match op
    case Signal(i) => System(SignalRing(s.ring, s.sems[i]), s.sems[i := SignalSem(s.sems[i])])
    case Wait(i) => System(WaitRing(s.ring, s.sems[i]), s.sems[i := WaitSem(s.sems[i], s.ring[0])])
    case Detach => s.(ring := s.ring[1..] + [s.ring[0]])
  }

  ghost predicate Run<T>(states: seq<System<T>>, ops: seq<Op>) {
    && |states| == |ops| + 1
    && forall k :: 0 <= k < |ops| ==>
         states[k].ring != [] && Enabled(states[k], ops[k]) && states[k + 1] == Step(states[k], ops[k])
  }

  /** The same, but nothing is known of what follows a lone `wait`. */
  ghost predicate Attempt<T>(states: seq<System<T>>, ops: seq<Op>) {
    && |states| == |ops| + 1
    && forall k :: 0 <= k < |ops| ==>
         && Known(states[k], ops[k])
         && (states[k].ring != [] && !Lone(states[k], ops[k]) ==> states[k + 1] == Step(states[k], ops[k]))
  }

  /** What holds of one semaphore at any time. */
  ghost predicate SemInv<T>(m: Sem<T>) {
    && m.count >= 0
    && (m.count > 0 ==> m.waiting == [])
    && m.initial + m.signals == m.count + m.granted
    && m.blocked == m.woken + m.waiting
  }

  /** All tasks, wherever they are queued. */
  ghost function Waiting<T>(sems: seq<Sem<T>>): multiset<T> {
    if sems == [] then multiset{} else Waiting(sems[..|sems| - 1]) + multiset(sems[|sems| - 1].waiting)
  }

  ghost function Tasks<T>(s: System<T>): multiset<T> {
    multiset(s.ring) + Waiting(s.sems)
  }

  ghost predicate Inv<T>(s: System<T>, tasks: multiset<T>) {
    && s.ring != []
    && (forall i :: 0 <= i < |s.sems| ==> SemInv(s.sems[i]))
    && Tasks(s) == tasks
  }

  lemma {:induction false} WaitingUpdate<T>(sems: seq<Sem<T>>, i: nat, m: Sem<T>)
    requires i < |sems|
    ensures Waiting(sems[i := m]) + multiset(sems[i].waiting) == Waiting(sems) + multiset(m.waiting)
    decreases |sems|
  {
    var n := |sems| - 1;
    if i == n {
      assert sems[i := m][..n] == sems[..n];
    } else {
      WaitingUpdate(sems[..n], i, m);
      assert sems[i := m][..n] == sems[..n][i := m];
      Carry(Waiting(sems[..n][i := m]), Waiting(sems[..n]), multiset(sems[n].waiting),
            multiset(sems[i].waiting), multiset(m.waiting));
    }
  }

  lemma {:induction false} Carry<T>(a: multiset<T>, b: multiset<T>, w: multiset<T>, x: multiset<T>, y: multiset<T>)
    requires a + x == b + y
    ensures (a + w) + x == (b + w) + y
  {
    assert (a + w) + x == (a + x) + w;
    assert (b + w) + y == (b + y) + w;
  }

  /** A task moves from a queue `x` to the ring, or back. */
  lemma {:induction false} Moves<T>(ring: multiset<T>, ring': multiset<T>, a: multiset<T>, b: multiset<T>,
                 x: multiset<T>, y: multiset<T>, t: T)
    requires b + x == a + y
    requires (ring' == ring + multiset{t} && x == y + multiset{t}) ||
             (ring == ring' + multiset{t} && y == x + multiset{t})
    ensures ring' + b == ring + a
  {
    if x == y + multiset{t} {
      assert (b + multiset{t}) + y == b + x;
      Cancel(b + multiset{t}, a, y);
      assert ring' + b == ring + (b + multiset{t});
    } else {
      assert (a + multiset{t}) + x == a + y;
      Cancel(b, a + multiset{t}, x);
      assert ring' + (a + multiset{t}) == (ring' + multiset{t}) + a;
    }
  }

  lemma {:induction false} Cancel<T>(a: multiset<T>, b: multiset<T>, x: multiset<T>)
    requires a + x == b + x
    ensures a == b
  {
    forall e | e in a || e in b ensures a[e] == b[e] {
      assert (a + x)[e] == (b + x)[e];
    }
  }

  /** Every step keeps the invariant; no task is lost, duplicated or in two rings. */
  lemma {:induction false} StepKeeps<T>(s: System<T>, op: Op, tasks: multiset<T>)
    requires Inv(s, tasks) && Enabled(s, op)
    ensures Inv(Step(s, op), tasks)
  {
    var s' := Step(s, op);
    match op
    case Signal(i) => SignalKeeps(s, i, tasks);
    case Wait(i) => WaitKeeps(s, i, tasks);
    case Detach => assert s.ring == [s.ring[0]] + s.ring[1..];
  }

  lemma {:induction false} SignalSemKeeps<T>(m: Sem<T>)
    requires SemInv(m)
    ensures SemInv(SignalSem(m))
    ensures m.waiting != [] ==> multiset(m.waiting) == multiset(m.waiting[1..]) + multiset{m.waiting[0]}
  {
    if m.waiting != [] {
      assert m.waiting == [m.waiting[0]] + m.waiting[1..];
      assert m.woken + m.waiting == m.woken + [m.waiting[0]] + m.waiting[1..];
    }
  }

  /** One semaphore and the ring have changed; the books still balance. */
  lemma {:induction false} Rebuild<T>(s: System<T>, ring: seq<T>, i: nat, m: Sem<T>, tasks: multiset<T>)
    requires Inv(s, tasks) && i < |s.sems| && SemInv(m) && ring != []
    requires multiset(ring) + Waiting(s.sems[i := m]) == multiset(s.ring) + Waiting(s.sems)
    ensures Inv(System(ring, s.sems[i := m]), tasks)
  {
    hide SemInv, Waiting;
  }

  lemma {:induction false} SignalKeeps<T>(s: System<T>, i: nat, tasks: multiset<T>)
    requires Inv(s, tasks) && i < |s.sems|
    ensures Inv(Step(s, Signal(i)), tasks)
  {
    var m, ring := s.sems[i], s.ring;
    assert SemInv(m) && ring != [];
    var m', ring' := SignalSem(m), SignalRing(ring, m);
    assert Step(s, Signal(i)) == System(ring', s.sems[i := m']);
    assert if m.waiting == [] then m'.waiting == [] && ring' == ring
           else m'.waiting == m.waiting[1..] && ring' == [m.waiting[0]] + ring[1..] + [ring[0]];
    hide *;
    SignalSemKeeps(m);
    WaitingUpdate(s.sems, i, m');
    var before, after := Waiting(s.sems), Waiting(s.sems[i := m']);
    if m.waiting == [] {
      Cancel(after, before, multiset([]));
    } else {
      RingMultiset(ring, ring', m.waiting[0]);
      Moves(multiset(ring), multiset(ring'), before, after,
            multiset(m.waiting), multiset(m'.waiting), m.waiting[0]);
    }
    Rebuild(s, ring', i, m', tasks);
  }

  lemma {:induction false} RingMultiset<T>(ring: seq<T>, ring': seq<T>, t: T)
    requires ring != [] && ring' == [t] + ring[1..] + [ring[0]]
    ensures multiset(ring') == multiset(ring) + multiset{t}
  {
    assert ring == [ring[0]] + ring[1..];
  }

  lemma {:induction false} WaitSemKeeps<T>(m: Sem<T>, t: T)
    requires SemInv(m)
    ensures SemInv(WaitSem(m, t))
    ensures m.count == 0 ==> multiset(WaitSem(m, t).waiting) == multiset(m.waiting) + multiset{t}
  {
    if m.count == 0 { assert m.woken + m.waiting + [t] == m.woken + (m.waiting + [t]); }
  }

  lemma {:induction false} WaitKeeps<T>(s: System<T>, i: nat, tasks: multiset<T>)
    requires Inv(s, tasks) && Enabled(s, Wait(i))
    ensures Inv(Step(s, Wait(i)), tasks)
  {
    var m, ring, t := s.sems[i], s.ring, s.ring[0];
    assert SemInv(m);
    var m', ring' := WaitSem(m, t), WaitRing(ring, m);
    assert Step(s, Wait(i)) == System(ring', s.sems[i := m']);
    assert if m.count != 0 then m'.waiting == m.waiting && ring' == ring else ring' == ring[1..] && ring' != [];
    hide *;
    WaitSemKeeps(m, t);
    WaitingUpdate(s.sems, i, m');
    var before, after := Waiting(s.sems), Waiting(s.sems[i := m']);
    if m.count != 0 {
      Cancel(after, before, multiset(m.waiting));
    } else {
      assert ring == [t] + ring';
      Moves(multiset(ring), multiset(ring'), before, after, multiset(m.waiting), multiset(m'.waiting), t);
    }
    Rebuild(s, ring', i, m', tasks);
  }

  /** Main theorem, over every run in which a blocking task leaves another one runnable:
      counts never go negative; a positive count means no waiters; initial count plus
      signals is count plus granted waits; waiters are granted in the order they blocked;
      and the tasks are always the same, each in exactly one ring. */
  lemma {:induction false} RunKeeps<T>(states: seq<System<T>>, ops: seq<Op>, tasks: multiset<T>)
    requires Run(states, ops) && Inv(states[0], tasks)
    ensures forall k :: 0 <= k < |states| ==> Inv(states[k], tasks)
    decreases |ops|
  {
    if ops != [] {
      var n := |ops| - 1;
      RunKeeps(states[..n + 1], ops[..n], tasks);
      assert states[..n + 1][n] == states[n];
      StepKeeps(states[n], ops[n], tasks);
      forall k | 0 <= k < |states| ensures Inv(states[k], tasks) {
        if k <= n { assert states[..n + 1][k] == states[k]; }
      }
    }
  }

  /** Where the hypothesis is met: with one task in the run ring that never waits, no other
      `wait` is a lone one, whatever the tasks do. */
  lemma {:induction false} NeverLone<T>(states: seq<System<T>>, ops: seq<Op>, z: T)
    requires Attempt(states, ops) && z in states[0].ring
    requires forall k :: 0 <= k < |ops| && ops[k].Wait? && states[k].ring != [] ==> states[k].ring[0] != z
    ensures Run(states, ops) && z in states[|ops|].ring
    decreases |ops|
  {
    if ops != [] {
      var n := |ops| - 1;
      var before := states[..n + 1];
      assert before[n] == states[n];
      NeverLone(before, ops[..n], z);
      StaysRunnable(states[n], ops[n], z);
    }
  }

  lemma {:induction false} StaysRunnable<T>(s: System<T>, op: Op, z: T)
    requires Known(s, op) && z in s.ring && (op.Wait? ==> s.ring[0] != z)
    ensures Enabled(s, op) && z in Step(s, op).ring
  {
    assert s.ring == [s.ring[0]] + s.ring[1..];
    if s.ring[0] != z { assert z in s.ring[1..]; }
  }

  /** Where it is not: the only task enters a mutex, and then enters it again, with no token
      left and none given back. */
  lemma {:induction false} LoneTwiceInMutex<T>(t: T)
    ensures var s0 := System([t], [NewSem(1)]);
            && Enabled(s0, Wait(0)) && GoesOn(s0.sems[0], s0.ring)
            && var s1 := Step(s0, Wait(0));
               && Lone(s1, Wait(0)) && GoesOn(s1.sems[0], s1.ring)
               && s1.sems[0].granted == 1 && s1.sems[0].signals == 0 && s1.ring[0] == t
  {
    var s0 := System([t], [NewSem<T>(1)]);
    assert Step(s0, Wait(0)).sems[0] == WaitSem(s0.sems[0], t);
  }

  /** A fresh system with different tasks satisfies the invariant, and then every task is in
      exactly one place, once. */
  lemma {:induction false} FreshSystem<T>(ring: seq<T>, counts: seq<int>)
    requires ring != [] && forall i :: 0 <= i < |counts| ==> counts[i] >= 0
    ensures Inv(System(ring, seq(|counts|, i requires 0 <= i < |counts| => NewSem<T>(counts[i]))), multiset(ring))
  {
    var sems := seq(|counts|, i requires 0 <= i < |counts| => NewSem<T>(counts[i]));
    NobodyWaits(sems);
  }

  lemma {:induction false} NobodyWaits<T>(sems: seq<Sem<T>>)
    requires forall i :: 0 <= i < |sems| ==> sems[i].waiting == []
    ensures Waiting(sems) == multiset{}
    decreases |sems|
  {
    if sems != [] { NobodyWaits(sems[..|sems| - 1]); }
  }

  /** Grants never outrun tokens, in such runs: of the waits granted on a semaphore, those not
      yet matched by a signal are at most its initial count. For a mutex this is mutual
      exclusion. */
  lemma {:induction false} TokensBoundGrants<T>(states: seq<System<T>>, ops: seq<Op>, tasks: multiset<T>, i: nat)
    requires Run(states, ops) && Inv(states[0], tasks) && i < |states[0].sems|
    ensures forall k :: 0 <= k < |states| ==>
              && |states[k].sems| == |states[0].sems|
              && states[k].sems[i].initial == states[0].sems[i].initial
              && states[k].sems[i].granted - states[k].sems[i].signals <= states[0].sems[i].initial
  {
    RunKeeps(states, ops, tasks);
    SameSemaphores(states, ops, i);
    forall k | 0 <= k < |states|
      ensures states[k].sems[i].granted - states[k].sems[i].signals <= states[0].sems[i].initial
    {
      assert Inv(states[k], tasks);
      assert SemInv(states[k].sems[i]);
    }
  }

  lemma {:induction false} SameSemaphores<T>(states: seq<System<T>>, ops: seq<Op>, i: nat)
    requires Run(states, ops) && i < |states[0].sems|
    ensures forall k :: 0 <= k < |states| ==>
              |states[k].sems| == |states[0].sems| && states[k].sems[i].initial == states[0].sems[i].initial
    decreases |ops|
  {
    if ops != [] {
      var n := |ops| - 1;
      SameSemaphores(states[..n + 1], ops[..n], i);
      assert states[..n + 1][n] == states[n];
      forall k | 0 <= k < |states|
        ensures |states[k].sems| == |states[0].sems| && states[k].sems[i].initial == states[0].sems[i].initial
      {
        if k <= n { assert states[..n + 1][k] == states[k]; }
      }
    }
  }

  // ----- the books, counted from the operations alone -----

  function Signals(ops: seq<Op>, i: nat): nat {
    if ops == [] then 0
    else Signals(ops[..|ops| - 1], i) + (if ops[|ops| - 1] == Signal(i) then 1 else 0)
  }

  function Waits(ops: seq<Op>, i: nat): nat {
    if ops == [] then 0
    else Waits(ops[..|ops| - 1], i) + (if ops[|ops| - 1] == Wait(i) then 1 else 0)
  }

  /** Count less waiters. */
  function Balance<T>(m: Sem<T>): int { m.count - |m.waiting| }

  /** Over every run: each `signal` raises the balance of its semaphore by one, whatever its
      count is, and each `wait` lowers it by one. */
  lemma {:induction false} Ledger<T>(states: seq<System<T>>, ops: seq<Op>, i: nat)
    requires Run(states, ops) && i < |states[0].sems|
    ensures |states[|ops|].sems| == |states[0].sems|
    ensures var m0, m := states[0].sems[i], states[|ops|].sems[i];
            && Balance(m) == Balance(m0) + Signals(ops, i) - Waits(ops, i)
            && m.signals == m0.signals + Signals(ops, i)
            && m.granted + |m.waiting| == m0.granted + |m0.waiting| + Waits(ops, i)
    decreases |ops|
  {
    hide Step, Balance;
    if ops != [] {
      var n := |ops| - 1;
      Ledger(states[..n + 1], ops[..n], i);
      assert states[..n + 1][n] == states[n];
      OneBooked(states[n], ops[n], i);
    }
  }

  lemma {:induction false} OneBooked<T>(s: System<T>, op: Op, i: nat)
    requires s.ring != [] && Enabled(s, op) && i < |s.sems|
    ensures |Step(s, op).sems| == |s.sems|
    ensures var m, m' := s.sems[i], Step(s, op).sems[i];
            && Balance(m') == Balance(m) + (if op == Signal(i) then 1 else 0) - (if op == Wait(i) then 1 else 0)
            && m'.signals == m.signals + (if op == Signal(i) then 1 else 0)
            && m'.granted + |m'.waiting| == m.granted + |m.waiting| + (if op == Wait(i) then 1 else 0)
  {}

  /** So the operations alone say what stands in memory: from initial count, signals and waits
      either the tokens left or the tasks waiting for one. */
  lemma {:induction false} CountsFromOperations<T>(states: seq<System<T>>, ops: seq<Op>, tasks: multiset<T>, i: nat,
                                                   k: nat)
    requires Run(states, ops) && Inv(states[0], tasks) && i < |states[0].sems| && k <= |ops|
    requires states[0].sems[i].waiting == []
    ensures |states[k].sems| == |states[0].sems|
    ensures var m := states[k].sems[i];
            var tokens := states[0].sems[i].count + Signals(ops[..k], i) - Waits(ops[..k], i);
            if tokens >= 0 then m.count == tokens && m.waiting == [] else m.count == 0 && |m.waiting| == -tokens
  {
    RunKeeps(states, ops, tasks);
    Ledger(states[..k + 1], ops[..k], i);
    assert states[..k + 1][k] == states[k];
    assert Inv(states[k], tasks);
    assert SemInv(states[k].sems[i]);
  }

  /** The tasks that ran into a `wait` on semaphore `i` when its count was zero, in order. */
  function Blockers<T>(states: seq<System<T>>, ops: seq<Op>, i: nat): seq<T>
    requires |states| == |ops| + 1
    requires forall k :: 0 <= k < |ops| ==> states[k].ring != [] && i < |states[k].sems|
    decreases |ops|
  {
    if ops == [] then []
    else
      var n := |ops| - 1;
      Blockers(states[..n + 1], ops[..n], i) +
      (if ops[n] == Wait(i) && states[n].sems[i].count == 0 then [states[n].ring[0]] else [])
  }

  /** The tasks that were running after a `signal` on semaphore `i` when somebody waited. */
  function Resumed<T>(states: seq<System<T>>, ops: seq<Op>, i: nat): seq<T>
    requires |states| == |ops| + 1
    requires forall k :: 0 <= k < |states| ==> states[k].ring != [] && i < |states[k].sems|
    decreases |ops|
  {
    if ops == [] then []
    else
      var n := |ops| - 1;
      Resumed(states[..n + 1], ops[..n], i) +
      (if ops[n] == Signal(i) && states[n].sems[i].waiting != [] then [states[n + 1].ring[0]] else [])
  }

  /** First come, first served, over every run: those who waited at the start and those who
      blocked since are, in this order, those who were resumed and those who still wait. */
  lemma {:induction false} FirstComeFirstServed<T>(states: seq<System<T>>, ops: seq<Op>, i: nat)
    requires Run(states, ops)
    requires forall k :: 0 <= k < |states| ==> states[k].ring != [] && i < |states[k].sems|
    ensures states[0].sems[i].waiting + Blockers(states, ops, i)
         == Resumed(states, ops, i) + states[|ops|].sems[i].waiting
    decreases |ops|
  {
    hide Step;
    if ops != [] {
      var n := |ops| - 1;
      var before := states[..n + 1];
      FirstComeFirstServed(before, ops[..n], i);
      assert before[n] == states[n];
      OneServed(states[n], ops[n], i);
      var w0, w, w' := states[0].sems[i].waiting, states[n].sems[i].waiting, states[n + 1].sems[i].waiting;
      var b1 := if ops[n] == Wait(i) && states[n].sems[i].count == 0 then [states[n].ring[0]] else [];
      var r1 := if ops[n] == Signal(i) && states[n].sems[i].waiting != [] then [states[n + 1].ring[0]] else [];
      Regroup(w0, Blockers(before, ops[..n], i), b1, w, Resumed(before, ops[..n], i), r1, w');
    }
  }

  lemma {:induction false} Regroup<T>(w0: seq<T>, b: seq<T>, b1: seq<T>, w: seq<T>, r: seq<T>, r1: seq<T>, w': seq<T>)
    requires w0 + b == r + w && w + b1 == r1 + w'
    ensures w0 + (b + b1) == (r + r1) + w'
  {
    assert w0 + (b + b1) == (w0 + b) + b1;
    assert (r + w) + b1 == r + (w + b1);
    assert r + (r1 + w') == (r + r1) + w';
  }

  lemma {:induction false} OneServed<T>(s: System<T>, op: Op, i: nat)
    requires s.ring != [] && Enabled(s, op) && i < |s.sems|
    ensures var s' := Step(s, op);
            && |s'.sems| == |s.sems|
            && (op == Signal(i) && s.sems[i].waiting != [] ==> s'.ring != [])
            && s.sems[i].waiting + (if op == Wait(i) && s.sems[i].count == 0 then [s.ring[0]] else [])
               == (if op == Signal(i) && s.sems[i].waiting != [] then [s'.ring[0]] else []) + s'.sems[i].waiting
  {
    var w := s.sems[i].waiting;
    if w != [] { assert w == [w[0]] + w[1..]; }
    assert w + [] == w && [] + w == w;
  }

  /** Tasks that only `detach` take turns in ring order, and after a whole round the ring is as
      it was. */
  lemma {:induction false} TurnsComeRound<T>(states: seq<System<T>>, ops: seq<Op>)
    requires Run(states, ops) && |ops| <= |states[0].ring| && forall k :: 0 <= k < |ops| ==> ops[k] == Detach
    ensures var n, ring := |ops|, states[0].ring;
            && states[n].ring == ring[n..] + ring[..n]
            && (n < |ring| ==> states[n].ring[0] == ring[n])
            && (n == |ring| ==> states[n].ring == ring)
            && states[n].sems == states[0].sems
    decreases |ops|
  {
    var ring := states[0].ring;
    if ops == [] {
      assert ring[0..] + ring[..0] == ring;
    } else {
      var n := |ops| - 1;
      TurnsComeRound(states[..n + 1], ops[..n]);
      assert states[..n + 1][n] == states[n];
      assert ring[n..][1..] == ring[n + 1..] && ring[..n] + [ring[n]] == ring[..n + 1];
      assert (ring[n..] + ring[..n])[1..] == ring[n + 1..] + ring[..n];
      assert ring[n + 1..] + ring[..n] + [ring[n]] == ring[n + 1..] + ring[..n + 1];
    }
    if |ops| == |ring| { assert ring[|ring|..] + ring[..|ring|] == ring; }
  }
}
