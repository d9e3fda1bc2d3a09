/** Channels on the cooperative ring: the running task takes a step or passes its turn on with
    `detach`; `wait` and `signal` change the ring as they change the semaphore, and a task that
    has to wait as the only runnable one goes on without a token. Channel tasks do nothing but
    send or receive; other tasks in the ring only pass. */
module Schedules {
  import opened S = Semaphores
  import opened Channels

  datatype Turn<E> = Do(e: E) | Pass

  // ----- the ring and the blocked tasks -----

  /** Of `all` tasks exactly those that are not blocked are in the ring, and nobody twice. */
  ghost predicate Runnable(ring: seq<Task>, all: set<Task>, blocked: set<Task>) {
    && (forall i, j :: 0 <= i < j < |ring| ==> ring[i] != ring[j])
    && forall t :: t in all ==> (t in ring <==> t !in blocked)
  }

  lemma {:induction false} Woken(ring: seq<Task>, m: Sem<Task>, all: set<Task>, blocked: set<Task>)
    requires ring != [] && Runnable(ring, all, blocked)
    requires m.waiting != [] ==> m.waiting[0] in all && m.waiting[0] in blocked
    ensures var ring' := SignalRing(ring, m);
            && ring' != [] && (forall t :: t in ring ==> t in ring')
            && Runnable(ring', all, if m.waiting == [] then blocked else blocked - {m.waiting[0]})
  {
    assert ring == [ring[0]] + ring[1..];
    if m.waiting != [] { assert forall t :: t in SignalRing(ring, m) <==> t == m.waiting[0] || t in ring; }
  }

  lemma {:induction false} Blocks(ring: seq<Task>, all: set<Task>, blocked: set<Task>)
    requires ring != [] && Runnable(ring, all, blocked)
    ensures Runnable(ring[1..], all, blocked + {ring[0]})
    ensures forall t :: t in ring ==> t == ring[0] || t in ring[1..]
  {
    assert ring == [ring[0]] + ring[1..];
  }

  lemma {:induction false} Passes(ring: seq<Task>, all: set<Task>, blocked: set<Task>)
    requires ring != [] && Runnable(ring, all, blocked)
    ensures Runnable(ring[1..] + [ring[0]], all, blocked)
    ensures forall t :: t in ring ==> t in ring[1..] + [ring[0]]
  {
    assert ring == [ring[0]] + ring[1..];
    assert forall t :: t in ring[1..] + [ring[0]] <==> t in ring;
  }

  // ----- one sender -----

  datatype OneSched = OneSched(c: OneChan, ring: seq<Task>)

  function OneActor(c: OneChan, e: OneStep): Task {
    if e.Store? || e.SignalSent? || e.WaitReceived? then c.sender else e.t
  }

  predicate OneCan(s: OneSched, r: Turn<OneStep>) {
    s.ring != [] && (r.Do? ==> OneEnabled(s.c, r.e) && s.ring[0] == OneActor(s.c, r.e))
  }

  /** The semaphore the step waits on has no token, and nobody else is runnable. */
  predicate OneLone(c: OneChan, e: OneStep, ring: seq<Task>) {
    || (e.WaitReceived? && c.received.count == 0 && GoesOn(c.received, ring))
    || (e.WaitSent? && c.sent.count == 0 && GoesOn(c.sent, ring))
  }

  function OneRing(c: OneChan, e: OneStep, ring: seq<Task>): seq<Task>
    requires ring != []
  {
    match e
    case SignalSent => SignalRing(ring, c.sent)
    case SignalReceived(_) => SignalRing(ring, c.received)
    case WaitReceived => WaitRing(ring, c.received)
    case WaitSent(_) => WaitRing(ring, c.sent)
    case _ => ring
  }

  function OneGo(s: OneSched, r: Turn<OneStep>): OneSched
    requires OneCan(s, r)
  {
    match r
    case Pass => s.(ring := s.ring[1..] + [s.ring[0]])
    case Do(e) =>
      var c := OneNext(s.c, e);
      if !OneLone(s.c, e, s.ring) then OneSched(c, OneRing(s.c, e, s.ring))
      else if e.WaitReceived? then s.(c := c.(sAt := SIdle))
      else s.(c := c.(rAt := c.rAt[e.t := RGranted]))
  }

  predicate OneReaches(s0: OneSched, rs: seq<Turn<OneStep>>, s: OneSched)
    decreases |rs|
  {
    if rs == [] then s == s0 else OneCan(s0, rs[0]) && OneReaches(OneGo(s0, rs[0]), rs[1..], s)
  }

  function OneTasks(c: OneChan): set<Task> { {c.sender} + c.rAt.Keys }

  function OneBlocked(c: OneChan): set<Task> {
    (if c.sAt == SBlocked then {c.sender} else {}) + set t | t in c.rAt && c.rAt[t] == RBlocked
  }

  /** A new channel, its tasks in the ring with any others. */
  ghost predicate OneReady(s: OneSched) {
    OneStart(s.c) && s.c.sender !in s.c.rAt && (forall t :: t in OneTasks(s.c) ==> t in s.ring) &&
    Runnable(s.ring, OneTasks(s.c), {})
  }

  /** Some task besides the sender: a receiver, or one that has nothing to do with the channel. */
  ghost predicate OneCompany(s: OneSched) {
    s.c.rAt.Keys != {} || exists z :: z in s.ring && z !in OneTasks(s.c)
  }

  ghost predicate OneSchedInv(s: OneSched, k: Token) {
    && OneInv(s.c, k) && s.c.sender !in s.c.rAt && OneCompany(s)
    && s.ring != [] && Runnable(s.ring, OneTasks(s.c), OneBlocked(s.c))
  }

  predicate OneBlocks(c: OneChan, e: OneStep) {
    (e.WaitReceived? && c.received.count == 0) || (e.WaitSent? && c.sent.count == 0)
  }

  /** Whoever blocks leaves another task runnable: a task of the channel, as it never has all of
      them blocked, or a task from outside. */
  lemma {:induction false} OneOther(s: OneSched, k: Token, e: OneStep) returns (z: Task)
    requires OneSchedInv(s, k) && OneCan(s, Do(e)) && OneBlocks(s.c, e)
    ensures z in s.ring && z != OneActor(s.c, e)
  {
    var c' := OneNext(s.c, e);
    assert s.c.sender in OneTasks(s.c);
    if s.c.rAt.Keys == {} {
      z :| z in s.ring && z !in OneTasks(s.c);
    } else {
      OneKeeps(s.c, k, e);
      OneAwake(c', OneMove(s.c, k, e));
      if c'.sAt != SBlocked {
        z := s.c.sender;
      } else {
        z :| z in c'.rAt && c'.rAt[z] != RBlocked;
        assert z in OneTasks(s.c);
      }
    }
  }

  lemma {:induction false} OneNotLone(s: OneSched, k: Token, e: OneStep)
    requires OneSchedInv(s, k) && OneCan(s, Do(e))
    ensures !OneLone(s.c, e, s.ring)
  {
    if OneBlocks(s.c, e) {
      var z := OneOther(s, k, e);
      assert |s.ring| >= 2;
    }
  }

  lemma {:induction false} OneGoKeeps(s: OneSched, k: Token, r: Turn<OneStep>) returns (k': Token)
    requires OneSchedInv(s, k) && OneCan(s, r)
    ensures OneSchedInv(OneGo(s, r), k')
  {
    hide OneInv, OneNext, OneLone, OneBlocked, OneStart, Runnable, OneMove, OneEnabled;
    k' := k;
    var s' := OneGo(s, r);
    if r.Pass? {
      Passes(s.ring, OneTasks(s.c), OneBlocked(s.c));
      Company(s, s');
    } else {
      OneNotLone(s, k, r.e);
      OneKeeps(s.c, k, r.e);
      SameSender(s.c, r.e);
      k' := OneMove(s.c, k, r.e);
      OneRingKeeps(s, k, r.e);
      Company(s, s');
    }
  }

  lemma {:induction false} SameSender(c: OneChan, e: OneStep)
    requires OneEnabled(c, e)
    ensures OneNext(c, e).sender == c.sender
  {}

  lemma {:induction false} Company(s: OneSched, s': OneSched)
    requires OneCompany(s) && OneTasks(s'.c) == OneTasks(s.c) && s'.c.rAt.Keys == s.c.rAt.Keys
    requires forall t :: t in s.ring && t !in OneTasks(s.c) ==> t in s'.ring
    ensures OneCompany(s')
  {
    if s.c.rAt.Keys == {} {
      var z :| z in s.ring && z !in OneTasks(s.c);
      assert z in s'.ring;
    }
  }

  /** Who is blocked after a step. */
  function OneBlockedNext(c: OneChan, e: OneStep, b: set<Task>): set<Task> {
    match e
    case SignalSent => if c.sent.waiting == [] then b else b - {c.sent.waiting[0]}
    case SignalReceived(_) => if c.received.waiting == [] then b else b - {c.received.waiting[0]}
    case WaitReceived => if c.received.count == 0 then b + {c.sender} else b
    case WaitSent(t) => if c.sent.count == 0 then b + {t} else b
    case _ => b
  }

  lemma {:induction false} OneBlockedIs(c: OneChan, k: Token, e: OneStep)
    requires OneInv(c, k) && OneEnabled(c, e) && c.sender !in c.rAt
    ensures OneBlocked(OneNext(c, e)) == OneBlockedNext(c, e, OneBlocked(c))
  {
    hide OneInv, OneMove;
    var b, b' := OneBlocked(c), OneBlocked(OneNext(c, e));
    OneKeeps(c, k, e);
    forall t ensures t in b' <==> t in OneBlockedNext(c, e, b) {}
  }

  lemma {:induction false} OneWaiters(c: OneChan, k: Token)
    requires OneInv(c, k)
    ensures c.sent.waiting != [] ==> c.sent.waiting[0] in OneTasks(c) && c.sent.waiting[0] in OneBlocked(c)
    ensures c.received.waiting != [] ==> c.received.waiting[0] in OneTasks(c) && c.received.waiting[0] in OneBlocked(c)
  {
    if c.sent.waiting != [] { assert c.sent.waiting[0] in c.sent.waiting; }
  }

  lemma {:induction false} OneRingKeeps(s: OneSched, k: Token, e: OneStep)
    requires OneSchedInv(s, k) && OneCan(s, Do(e)) && !OneLone(s.c, e, s.ring)
    ensures var ring := OneRing(s.c, e, s.ring);
            && ring != [] && Runnable(ring, OneTasks(s.c), OneBlocked(OneNext(s.c, e)))
            && forall t :: t in s.ring && t !in OneTasks(s.c) ==> t in ring
  {
    hide OneInv, OneNext, OneBlocked, OneCompany, Runnable, SignalRing;
    var all, b := OneTasks(s.c), OneBlocked(s.c);
    OneBlockedIs(s.c, k, e);
    OneWaiters(s.c, k);
    match e
    case SignalSent => Woken(s.ring, s.c.sent, all, b);
    case SignalReceived(_) => Woken(s.ring, s.c.received, all, b);
    case WaitReceived => Blocks(s.ring, all, b);
    case WaitSent(t) => Blocks(s.ring, all, b);
    case _ =>
  }

  lemma {:induction false} OneRunKeeps(s0: OneSched, k0: Token, rs: seq<Turn<OneStep>>, s: OneSched) returns (k: Token)
    requires OneSchedInv(s0, k0) && OneReaches(s0, rs, s)
    ensures OneSchedInv(s, k)
    decreases |rs|
  {
    k := k0;
    if rs != [] {
      k := OneGoKeeps(s0, k, rs[0]);
      k := OneRunKeeps(OneGo(s0, rs[0]), k, rs[1..], s);
    }
  }

  ghost predicate OneAlwaysSafe(s0: OneSched) {
    forall rs: seq<Turn<OneStep>>, s: OneSched :: OneReaches(s0, rs, s) ==> OneSafe(s.c)
  }

  /** The exact condition: on the ring every run of the channel is safe if and only if the
      sender is not the only task when it starts. */
  lemma {:induction false} OneSafeIff(s0: OneSched)
    requires OneReady(s0)
    ensures OneAlwaysSafe(s0) <==> |s0.ring| >= 2
  {
    assert s0.c.sender in OneTasks(s0.c);
    if |s0.ring| >= 2 {
      assert OneBlocked(s0.c) == {};
      HasCompany(s0);
      forall rs: seq<Turn<OneStep>>, s: OneSched | OneReaches(s0, rs, s) ensures OneSafe(s.c) {
        var k := OneRunKeeps(s0, Nowhere, rs, s);
      }
    } else {
      var rs, s := LoneSender(s0, 0, 1);
      assert !OneSafe(s.c);
    }
  }

  lemma {:induction false} HasCompany(s: OneSched)
    requires OneReady(s) && |s.ring| >= 2
    ensures OneCompany(s)
  {
    var z := if s.ring[0] == s.c.sender then s.ring[1] else s.ring[0];
    assert z in s.ring && z != s.c.sender;
    if z in OneTasks(s.c) { assert z in s.c.rAt.Keys; }
  }

  /** A sender alone does not wait for its value to be fetched: the next one overwrites it. */
  lemma {:induction false} LoneSender(s0: OneSched, v: int, w: int) returns (rs: seq<Turn<OneStep>>, s: OneSched)
    requires OneReady(s0) && |s0.ring| == 1
    ensures rs == [Do(Store(v)), Do(SignalSent), Do(WaitReceived), Do(Store(w))] && OneReaches(s0, rs, s)
    ensures s.c.stored == [v, w] && s.c.fetched == [] && s.c.data == w
  {
    assert s0.c.sender in OneTasks(s0.c);
    assert s0.ring == [s0.c.sender];
    rs := [Do(Store(v)), Do(SignalSent), Do(WaitReceived), Do(Store(w))];
    var s1 := OneGo(s0, rs[0]);
    var s2 := OneGo(s1, rs[1]);
    var s3 := OneGo(s2, rs[2]);
    s := OneGo(s3, rs[3]);
    assert [] + [v] == [v] && [v] + [w] == [v, w];
    assert rs[1..] == [Do(SignalSent), Do(WaitReceived), Do(Store(w))];
    assert rs[1..][1..] == [Do(WaitReceived), Do(Store(w))];
    assert rs[1..][1..][1..] == [Do(Store(w))];
    assert rs[1..][1..][1..][1..] == [];
    assert OneReaches(s, [], s);
    assert OneReaches(s3, [Do(Store(w))], s);
    assert OneReaches(s2, [Do(WaitReceived), Do(Store(w))], s);
  }

  // ----- one receiver -----

  datatype ManySched = ManySched(c: ManyChan, ring: seq<Task>)

  function ManyActor(c: ManyChan, e: ManyStep): Task {
    if e.QSignalReceived? || e.QWaitSent? || e.QFetch? then c.receiver else e.t
  }

  predicate ManyCan(s: ManySched, r: Turn<ManyStep>) {
    s.ring != [] && (r.Do? ==> ManyEnabled(s.c, r.e) && s.ring[0] == ManyActor(s.c, r.e))
  }

  predicate ManyBlocks(c: ManyChan, e: ManyStep) {
    (e.QWaitSent? && c.sent.count == 0) || (e.MWaitReceived? && c.received.count == 0)
  }

  predicate ManyLone(c: ManyChan, e: ManyStep, ring: seq<Task>) {
    || (e.QWaitSent? && c.sent.count == 0 && GoesOn(c.sent, ring))
    || (e.MWaitReceived? && c.received.count == 0 && GoesOn(c.received, ring))
  }

  function ManyRing(c: ManyChan, e: ManyStep, ring: seq<Task>): seq<Task>
    requires ring != []
  {
    match e
    case QSignalReceived => SignalRing(ring, c.received)
    case MSignalSent(_) => SignalRing(ring, c.sent)
    case QWaitSent => WaitRing(ring, c.sent)
    case MWaitReceived(_) => WaitRing(ring, c.received)
    case _ => ring
  }

  function ManyGo(s: ManySched, r: Turn<ManyStep>): ManySched
    requires ManyCan(s, r)
  {
    match r
    case Pass => s.(ring := s.ring[1..] + [s.ring[0]])
    case Do(e) =>
      var c := ManyNext(s.c, e);
      if !ManyLone(s.c, e, s.ring) then ManySched(c, ManyRing(s.c, e, s.ring))
      else if e.QWaitSent? then s.(c := c.(qAt := QGranted))
      else s.(c := c.(mAt := c.mAt[e.t := MGranted]))
  }

  predicate ManyReaches(s0: ManySched, rs: seq<Turn<ManyStep>>, s: ManySched)
    decreases |rs|
  {
    if rs == [] then s == s0 else ManyCan(s0, rs[0]) && ManyReaches(ManyGo(s0, rs[0]), rs[1..], s)
  }

  function ManyTasks(c: ManyChan): set<Task> { {c.receiver} + c.mAt.Keys }

  function ManyBlocked(c: ManyChan): set<Task> {
    (if c.qAt == QBlocked then {c.receiver} else {}) + set t | t in c.mAt && c.mAt[t] == MBlocked
  }

  ghost predicate ManyReady(s: ManySched) {
    ManyStart(s.c) && s.c.receiver !in s.c.mAt && (forall t :: t in ManyTasks(s.c) ==> t in s.ring) &&
    Runnable(s.ring, ManyTasks(s.c), {})
  }

  ghost predicate ManyCompany(s: ManySched) {
    s.c.mAt.Keys != {} || exists z :: z in s.ring && z !in ManyTasks(s.c)
  }

  ghost predicate ManySchedInv(s: ManySched, k: ManyToken) {
    && ManyInv(s.c, k) && s.c.receiver !in s.c.mAt && ManyCompany(s)
    && s.ring != [] && Runnable(s.ring, ManyTasks(s.c), ManyBlocked(s.c))
  }

  lemma {:induction false} ManyOther(s: ManySched, k: ManyToken, e: ManyStep) returns (z: Task)
    requires ManySchedInv(s, k) && ManyCan(s, Do(e)) && ManyBlocks(s.c, e)
    ensures z in s.ring && z != ManyActor(s.c, e)
  {
    var c' := ManyNext(s.c, e);
    assert s.c.receiver in ManyTasks(s.c);
    if s.c.mAt.Keys == {} {
      z :| z in s.ring && z !in ManyTasks(s.c);
    } else {
      ManyKeeps(s.c, k, e);
      ManyAwake(c', ManyMove(s.c, k, e));
      if c'.qAt != QBlocked {
        z := s.c.receiver;
      } else {
        z :| z in c'.mAt && c'.mAt[z] != MBlocked;
        assert z in ManyTasks(s.c);
      }
    }
  }

  lemma {:induction false} ManyNotLone(s: ManySched, k: ManyToken, e: ManyStep)
    requires ManySchedInv(s, k) && ManyCan(s, Do(e))
    ensures !ManyLone(s.c, e, s.ring)
  {
    if ManyBlocks(s.c, e) {
      var z := ManyOther(s, k, e);
      assert |s.ring| >= 2;
    }
  }

  lemma {:induction false} ManyGoKeeps(s: ManySched, k: ManyToken, r: Turn<ManyStep>) returns (k': ManyToken)
    requires ManySchedInv(s, k) && ManyCan(s, r)
    ensures ManySchedInv(ManyGo(s, r), k')
  {
    hide ManyInv, ManyNext, ManyLone, ManyBlocked, ManyStart, Runnable, ManyMove, ManyEnabled;
    k' := k;
    var s' := ManyGo(s, r);
    if r.Pass? {
      Passes(s.ring, ManyTasks(s.c), ManyBlocked(s.c));
      ManyStillCompany(s, s');
    } else {
      ManyNotLone(s, k, r.e);
      ManyKeeps(s.c, k, r.e);
      SameReceiver(s.c, r.e);
      k' := ManyMove(s.c, k, r.e);
      ManyRingKeeps(s, k, r.e);
      ManyStillCompany(s, s');
    }
  }

  lemma {:induction false} SameReceiver(c: ManyChan, e: ManyStep)
    requires ManyEnabled(c, e)
    ensures ManyNext(c, e).receiver == c.receiver
  {}

  lemma {:induction false} ManyStillCompany(s: ManySched, s': ManySched)
    requires ManyCompany(s) && ManyTasks(s'.c) == ManyTasks(s.c) && s'.c.mAt.Keys == s.c.mAt.Keys
    requires forall t :: t in s.ring && t !in ManyTasks(s.c) ==> t in s'.ring
    ensures ManyCompany(s')
  {
    if s.c.mAt.Keys == {} {
      var z :| z in s.ring && z !in ManyTasks(s.c);
      assert z in s'.ring;
    }
  }

  function ManyBlockedNext(c: ManyChan, e: ManyStep, b: set<Task>): set<Task> {
    match e
    case QSignalReceived => if c.received.waiting == [] then b else b - {c.received.waiting[0]}
    case MSignalSent(_) => if c.sent.waiting == [] then b else b - {c.sent.waiting[0]}
    case QWaitSent => if c.sent.count == 0 then b + {c.receiver} else b
    case MWaitReceived(t) => if c.received.count == 0 then b + {t} else b
    case _ => b
  }

  lemma {:induction false} ManyBlockedIs(c: ManyChan, k: ManyToken, e: ManyStep)
    requires ManyInv(c, k) && ManyEnabled(c, e) && c.receiver !in c.mAt
    ensures ManyBlocked(ManyNext(c, e)) == ManyBlockedNext(c, e, ManyBlocked(c))
  {
    hide ManyInv, ManyMove;
    var b, b' := ManyBlocked(c), ManyBlocked(ManyNext(c, e));
    ManyKeeps(c, k, e);
    forall t ensures t in b' <==> t in ManyBlockedNext(c, e, b) {}
  }

  lemma {:induction false} ManyWaiters(c: ManyChan, k: ManyToken)
    requires ManyInv(c, k)
    ensures c.received.waiting != [] ==>
              c.received.waiting[0] in ManyTasks(c) && c.received.waiting[0] in ManyBlocked(c)
    ensures c.sent.waiting != [] ==> c.sent.waiting[0] in ManyTasks(c) && c.sent.waiting[0] in ManyBlocked(c)
  {
    if c.received.waiting != [] { assert c.received.waiting[0] in c.received.waiting; }
  }

  lemma {:induction false} ManyRingKeeps(s: ManySched, k: ManyToken, e: ManyStep)
    requires ManySchedInv(s, k) && ManyCan(s, Do(e)) && !ManyLone(s.c, e, s.ring)
    ensures var ring := ManyRing(s.c, e, s.ring);
            && ring != [] && Runnable(ring, ManyTasks(s.c), ManyBlocked(ManyNext(s.c, e)))
            && forall t :: t in s.ring && t !in ManyTasks(s.c) ==> t in ring
  {
    hide ManyInv, ManyNext, ManyBlocked, ManyCompany, Runnable, SignalRing;
    var all, b := ManyTasks(s.c), ManyBlocked(s.c);
    ManyBlockedIs(s.c, k, e);
    ManyWaiters(s.c, k);
    match e
    case QSignalReceived => Woken(s.ring, s.c.received, all, b);
    case MSignalSent(_) => Woken(s.ring, s.c.sent, all, b);
    case QWaitSent => Blocks(s.ring, all, b);
    case MWaitReceived(t) => Blocks(s.ring, all, b);
    case _ =>
  }

  lemma {:induction false} ManyRunKeeps(s0: ManySched, k0: ManyToken, rs: seq<Turn<ManyStep>>, s: ManySched)
    returns (k: ManyToken)
    requires ManySchedInv(s0, k0) && ManyReaches(s0, rs, s)
    ensures ManySchedInv(s, k)
    decreases |rs|
  {
    k := k0;
    if rs != [] {
      k := ManyGoKeeps(s0, k, rs[0]);
      k := ManyRunKeeps(ManyGo(s0, rs[0]), k, rs[1..], s);
    }
  }

  ghost predicate ManyAlwaysSafe(s0: ManySched) {
    forall rs: seq<Turn<ManyStep>>, s: ManySched :: ManyReaches(s0, rs, s) ==> ManySafe(s.c)
  }

  /** The same exact condition in MANY-TO-ONE mode. */
  lemma {:induction false} ManySafeIff(s0: ManySched)
    requires ManyReady(s0)
    ensures ManyAlwaysSafe(s0) <==> |s0.ring| >= 2
  {
    assert s0.c.receiver in ManyTasks(s0.c);
    if |s0.ring| >= 2 {
      assert ManyBlocked(s0.c) == {};
      ManyHasCompany(s0);
      forall rs: seq<Turn<ManyStep>>, s: ManySched | ManyReaches(s0, rs, s) ensures ManySafe(s.c) {
        var k := ManyRunKeeps(s0, NoToken, rs, s);
      }
    } else {
      var rs, s := LoneReceiver(s0);
      assert !ManySafe(s.c);
    }
  }

  lemma {:induction false} ManyHasCompany(s: ManySched)
    requires ManyReady(s) && |s.ring| >= 2
    ensures ManyCompany(s)
  {
    var z := if s.ring[0] == s.c.receiver then s.ring[1] else s.ring[0];
    assert z in s.ring && z != s.c.receiver;
    if z in ManyTasks(s.c) { assert z in s.c.mAt.Keys; }
  }

  /** A receiver alone does not wait for a sender: it fetches what nobody has stored. */
  lemma {:induction false} LoneReceiver(s0: ManySched) returns (rs: seq<Turn<ManyStep>>, s: ManySched)
    requires ManyReady(s0) && |s0.ring| == 1
    ensures rs == [Do(QSignalReceived), Do(QWaitSent), Do(QFetch)] && ManyReaches(s0, rs, s)
    ensures s.c.stored == [] && s.c.fetched == [s0.c.data]
  {
    assert s0.c.receiver in ManyTasks(s0.c);
    assert s0.ring == [s0.c.receiver];
    rs := [Do(QSignalReceived), Do(QWaitSent), Do(QFetch)];
    var s1 := ManyGo(s0, rs[0]);
    var s2 := ManyGo(s1, rs[1]);
    s := ManyGo(s2, rs[2]);
    assert [] + [s0.c.data] == [s0.c.data];
    assert rs[1..] == [Do(QWaitSent), Do(QFetch)];
    assert rs[1..][1..] == [Do(QFetch)];
    assert rs[1..][1..][1..] == [];
    assert ManyReaches(s, [], s);
    assert ManyReaches(s2, [Do(QFetch)], s);
  }

  // ----- rendezvous -----

  datatype MeetSched = MeetSched(m: Rendezvous, ring: seq<Task>)

  function MeetActor(e: MeetStep): Task {
    match e
    case Call(_) => CLIENT
    case OnArg(f) => if f.SignalSent? || f.WaitReceived? then CLIENT else SERVER
    case OnRes(f) => if f.SignalSent? || f.WaitReceived? then SERVER else CLIENT
    case _ => SERVER
  }

  predicate MeetCan(s: MeetSched, r: Turn<MeetStep>) {
    s.ring != [] && (r.Do? ==> MeetEnabled(s.m, r.e) && s.ring[0] == MeetActor(r.e))
  }

  predicate MeetLone(s: MeetSched, r: Turn<MeetStep>) {
    || (r.Do? && r.e.OnArg? && OneLone(s.m.arg, r.e.e, s.ring))
    || (r.Do? && r.e.OnRes? && OneLone(s.m.res, r.e.e, s.ring))
  }

  function MeetGo(s: MeetSched, r: Turn<MeetStep>, service: Service): MeetSched
    requires MeetCan(s, r)
  {
    match r
    case Pass => s.(ring := s.ring[1..] + [s.ring[0]])
    case Do(e) =>
      MeetSched(MeetNext(s.m, e, service),
                if e.OnArg? then OneRing(s.m.arg, e.e, s.ring)
                else if e.OnRes? then OneRing(s.m.res, e.e, s.ring)
                else s.ring)
  }

  /** A run on the ring; nothing is known of what follows a lone `wait`. */
  predicate MeetReaches(s0: MeetSched, rs: seq<Turn<MeetStep>>, s: MeetSched, service: Service)
    decreases |rs|
  {
    if rs == [] then s == s0
    else MeetCan(s0, rs[0]) && (MeetLone(s0, rs[0]) || MeetReaches(MeetGo(s0, rs[0], service), rs[1..], s, service))
  }

  function MeetBlocked(m: Rendezvous): set<Task> {
    (if ClientBlocked(m) then {CLIENT} else {}) + if ServerBlocked(m) then {SERVER} else {}
  }

  ghost predicate MeetReady(s: MeetSched) {
    MeetStart(s.m) && s.m.arg.sender == CLIENT && s.m.res.sender == SERVER &&
    CLIENT in s.ring && SERVER in s.ring && Runnable(s.ring, {CLIENT, SERVER}, {})
  }

  ghost predicate MeetSchedInv(s: MeetSched, k: Token, l: Token, service: Service) {
    && MeetInv(s.m, k, l, service) && s.m.arg.sender == CLIENT && s.m.res.sender == SERVER
    && s.ring != [] && Runnable(s.ring, {CLIENT, SERVER}, MeetBlocked(s.m))
  }

  predicate Blocking(m: Rendezvous, e: MeetStep) {
    (e.OnArg? && OneBlocks(m.arg, e.e)) || (e.OnRes? && OneBlocks(m.res, e.e))
  }

  /** Whoever blocks has not found the other blocked already. */
  lemma {:induction false} MeetOther(s: MeetSched, k: Token, l: Token, e: MeetStep, service: Service)
    requires MeetSchedInv(s, k, l, service) && MeetCan(s, Do(e)) && Blocking(s.m, e)
    ensures !MeetLone(s, Do(e))
  {
    hide MeetInv, MeetNext, MeetEnabled, ClientBlocked, ServerBlocked, OneBlocks;
    var m' := MeetNext(s.m, e, service);
    var z := if MeetActor(e) == CLIENT then SERVER else CLIENT;
    MeetKeeps(s.m, k, l, e, service);
    MeetAwake(m', MeetMoveArg(s.m, k, e), MeetMoveRes(s.m, l, e, service), service);
    BlocksActor(s.m, k, l, e, service);
    assert z in s.ring;
    assert |s.ring| >= 2;
  }

  /** A step that blocks blocks its own task, and no other is touched. */
  lemma {:induction false} BlocksActor(m: Rendezvous, k: Token, l: Token, e: MeetStep, service: Service)
    requires MeetInv(m, k, l, service) && MeetEnabled(m, e) && Blocking(m, e)
    ensures var m' := MeetNext(m, e, service);
            if MeetActor(e) == CLIENT then ClientBlocked(m') && (ServerBlocked(m') <==> ServerBlocked(m))
            else ServerBlocked(m') && (ClientBlocked(m') <==> ClientBlocked(m))
  {
    hide OneInv, Served;
    assert CLIENT in m.res.rAt && SERVER in m.arg.rAt;
  }

  lemma {:induction false} MeetRunsOn(s: MeetSched, k: Token, l: Token, r: Turn<MeetStep>, service: Service)
    returns (k': Token, l': Token)
    requires MeetSchedInv(s, k, l, service) && MeetCan(s, r)
    ensures !MeetLone(s, r) && MeetSchedInv(MeetGo(s, r, service), k', l', service)
  {
    hide MeetInv, MeetNext, MeetEnabled, Runnable, ClientBlocked, ServerBlocked, OneRing;
    k', l' := k, l;
    if r.Pass? {
      Passes(s.ring, {CLIENT, SERVER}, MeetBlocked(s.m));
    } else {
      if Blocking(s.m, r.e) { MeetOther(s, k, l, r.e, service); }
      MeetKeeps(s.m, k, l, r.e, service);
      SameRoles(s.m, r.e, service);
      k', l' := MeetMoveArg(s.m, k, r.e), MeetMoveRes(s.m, l, r.e, service);
      MeetRingKeeps(s, k, l, r.e, service);
    }
  }

  lemma {:induction false} SameRoles(m: Rendezvous, e: MeetStep, service: Service)
    requires MeetEnabled(m, e)
    ensures var m' := MeetNext(m, e, service); m'.arg.sender == m.arg.sender && m'.res.sender == m.res.sender
  {}

  lemma {:induction false} MeetRingKeeps(s: MeetSched, k: Token, l: Token, e: MeetStep, service: Service)
    requires MeetSchedInv(s, k, l, service) && MeetCan(s, Do(e)) && !MeetLone(s, Do(e))
    ensures var s' := MeetGo(s, Do(e), service);
            s'.ring != [] && Runnable(s'.ring, {CLIENT, SERVER}, MeetBlocked(s'.m))
  {
    hide MeetInv, MeetNext, MeetEnabled, Runnable, ClientBlocked, ServerBlocked, MeetBlocked, SignalRing;
    var all, b := {CLIENT, SERVER}, MeetBlocked(s.m);
    if Blocking(s.m, e) {
      MeetBlocks(s.m, k, l, e, service);
      Blocks(s.ring, all, b);
    } else {
      WakesOther(s.m, k, l, e, service);
      if e.OnArg? && e.e.SignalSent? { Woken(s.ring, s.m.arg.sent, all, b); }
      else if e.OnArg? && e.e.SignalReceived? { Woken(s.ring, s.m.arg.received, all, b); }
      else if e.OnRes? && e.e.SignalSent? { Woken(s.ring, s.m.res.sent, all, b); }
      else if e.OnRes? && e.e.SignalReceived? { Woken(s.ring, s.m.res.received, all, b); }
    }
  }

  lemma {:induction false} MeetBlocks(m: Rendezvous, k: Token, l: Token, e: MeetStep, service: Service)
    requires MeetInv(m, k, l, service) && MeetEnabled(m, e) && Blocking(m, e)
    ensures MeetBlocked(MeetNext(m, e, service)) == MeetBlocked(m) + {MeetActor(e)}
  {
    hide MeetInv, MeetNext, MeetEnabled, ClientBlocked, ServerBlocked, Blocking;
    BlocksActor(m, k, l, e, service);
  }

  /** The waiters of the semaphore the step signals, if it does. */
  function Wakes(c: OneChan, e: OneStep): seq<Task> {
    if e.SignalSent? then c.sent.waiting else if e.SignalReceived? then c.received.waiting else []
  }

  function MeetWakes(m: Rendezvous, e: MeetStep): seq<Task> {
    if e.OnArg? then Wakes(m.arg, e.e) else if e.OnRes? then Wakes(m.res, e.e) else []
  }

  /** A step that does not block wakes the first of them. */
  lemma {:induction false} WakesOther(m: Rendezvous, k: Token, l: Token, e: MeetStep, service: Service)
    requires MeetInv(m, k, l, service) && MeetEnabled(m, e) && !Blocking(m, e)
    requires m.arg.sender == CLIENT && m.res.sender == SERVER
    ensures var w := MeetWakes(m, e);
            && (w != [] ==> w[0] in {CLIENT, SERVER} && w[0] in MeetBlocked(m))
            && MeetBlocked(MeetNext(m, e, service)) ==
               if w == [] then MeetBlocked(m) else MeetBlocked(m) - {w[0]}
  {
    assert CLIENT in m.res.rAt && SERVER in m.arg.rAt;
    if e.OnArg? { WakesOnArg(m, k, l, e.e, service); } else if e.OnRes? { WakesOnRes(m, k, l, e.e, service); }
    hide OneInv, Served, OneNext, OneEnabled;
  }

  lemma {:induction false} WakesOnArg(m: Rendezvous, k: Token, l: Token, f: OneStep, service: Service)
    requires MeetInv(m, k, l, service) && MeetEnabled(m, OnArg(f)) && !OneBlocks(m.arg, f)
    requires m.arg.sender == CLIENT && m.res.sender == SERVER
    ensures var w := Wakes(m.arg, f);
            && (w != [] ==> w[0] in {CLIENT, SERVER} && w[0] in MeetBlocked(m))
            && MeetBlocked(MeetNext(m, OnArg(f), service)) ==
               if w == [] then MeetBlocked(m) else MeetBlocked(m) - {w[0]}
  {
    hide Served;
    OneKeeps(m.arg, k, f);
    assert CLIENT in m.res.rAt && SERVER in m.arg.rAt;
    assert m.res.rAt[CLIENT] == RIdle || m.cAt == CReceiving;
  }

  lemma {:induction false} WakesOnRes(m: Rendezvous, k: Token, l: Token, f: OneStep, service: Service)
    requires MeetInv(m, k, l, service) && MeetEnabled(m, OnRes(f)) && !OneBlocks(m.res, f)
    requires m.arg.sender == CLIENT && m.res.sender == SERVER
    ensures var w := Wakes(m.res, f);
            && (w != [] ==> w[0] in {CLIENT, SERVER} && w[0] in MeetBlocked(m))
            && MeetBlocked(MeetNext(m, OnRes(f), service)) ==
               if w == [] then MeetBlocked(m) else MeetBlocked(m) - {w[0]}
  {
    hide Served;
    OneKeeps(m.res, l, f);
    assert CLIENT in m.res.rAt && SERVER in m.arg.rAt;
    assert m.arg.rAt[SERVER] == RIdle || m.vAt == VReceiving;
  }

  lemma {:induction false} MeetRingRun(s0: MeetSched, k0: Token, l0: Token, rs: seq<Turn<MeetStep>>, s: MeetSched,
                                       service: Service) returns (k: Token, l: Token)
    requires MeetSchedInv(s0, k0, l0, service) && MeetReaches(s0, rs, s, service)
    ensures MeetSchedInv(s, k, l, service)
    decreases |rs|
  {
    k, l := k0, l0;
    if rs != [] {
      k, l := MeetRunsOn(s0, k, l, rs[0], service);
      k, l := MeetRingRun(MeetGo(s0, rs[0], service), k, l, rs[1..], s, service);
    }
  }

  /** A rendezvous needs no hypothesis: with client and server in the ring no `wait` of theirs
      is ever a lone one, and every call gets its answer. */
  lemma {:induction false} MeetOnRing(s0: MeetSched, rs: seq<Turn<MeetStep>>, s: MeetSched, service: Service)
    requires MeetReady(s0) && MeetReaches(s0, rs, s, service)
    ensures s.ring != [] && Answered(s.m, service)
  {
    assert MeetBlocked(s0.m) == {};
    var k, l := MeetRingRun(s0, Nowhere, Nowhere, rs, s, service);
    MeetAnswered(s.m, k, l, service);
  }
}
