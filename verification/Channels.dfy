/** Channels and rendezvous built from two semaphores, over every interleaving of their
    single steps.

    A step is a store, a fetch, or one semaphore operation of one task. Any task that is not
    blocked may take the next step. These are the runs in which a blocked task stays blocked
    until it is woken; on the ring that is so unless it was the only runnable task, which goes
    on without a token. `Schedules` has the ring, and shows when that cannot happen. */
module Channels {
  import opened S = Semaphores

  type Task = nat

  // ----- ONE-TO-ONE and ONE-TO-MANY: one sender, any number of receivers -----

  /** Where the sender is in `send`: before it, after the store, after `signal`, blocked in
      `wait`. */
  datatype SenderAt = SIdle | SStored | SSignalled | SBlocked

  /** Where a receiver is in `receive`: before it, blocked in `wait`, past it, after the
      fetch. */
  datatype ReceiverAt = RIdle | RBlocked | RGranted | RFetched

  /** A channel with its single sender and its receivers. `stored` and `fetched` list every
      value put into and taken out of the data field, in order. */
  datatype OneChan = OneChan(
    data: int, sent: Sem<Task>, received: Sem<Task>,
    sender: Task, sAt: SenderAt, rAt: map<Task, ReceiverAt>,
    stored: seq<int>, fetched: seq<int>)

  datatype OneStep =
    | Store(v: int) | SignalSent | WaitReceived
    | WaitSent(t: Task) | Fetch(t: Task) | SignalReceived(t: Task)

  predicate OneEnabled(c: OneChan, e: OneStep) {
    match e
    case Store(_) => c.sAt == SIdle
    case SignalSent => c.sAt == SStored
    case WaitReceived => c.sAt == SSignalled
    case WaitSent(t) => t in c.rAt && c.rAt[t] == RIdle
    case Fetch(t) => t in c.rAt && c.rAt[t] == RGranted
    case SignalReceived(t) => t in c.rAt && c.rAt[t] == RFetched
  }

  function OneNext(c: OneChan, e: OneStep): OneChan
    requires OneEnabled(c, e)
  {
    match e
    case Store(v) => c.(data := v, sAt := SStored, stored := c.stored + [v])
    case SignalSent =>
      var c1 := c.(sent := SignalSem(c.sent), sAt := SSignalled);
      if c.sent.waiting == [] then c1 else c1.(rAt := c.rAt[c.sent.waiting[0] := RGranted])
    case WaitReceived =>
      c.(received := WaitSem(c.received, c.sender), sAt := if c.received.count == 0 then SBlocked else SIdle)
    case WaitSent(t) =>
      c.(sent := WaitSem(c.sent, t), rAt := c.rAt[t := if c.sent.count == 0 then RBlocked else RGranted])
    case Fetch(t) => c.(fetched := c.fetched + [c.data], rAt := c.rAt[t := RFetched])
    case SignalReceived(t) =>
      var c1 := c.(received := SignalSem(c.received), rAt := c.rAt[t := RIdle]);
      if c.received.waiting == [] then c1 else c1.(sAt := SIdle)
  }

  /** `n CHAN` just made, nobody inside `send` or `receive`. */
  ghost predicate OneStart(c: OneChan) {
    && c.sent == NewSem(0) && c.received == NewSem(0)
    && c.sAt == SIdle && (forall t :: t in c.rAt ==> c.rAt[t] == RIdle)
    && c.stored == [] && c.fetched == []
  }

  /** Where the one token of an exchange is. */
  datatype Token = Nowhere | InSent | Held(t: Task) | Spent(t: Task) | InReceived

  ghost predicate OneInv(c: OneChan, k: Token) {
    && c.sent.count == (if k == InSent then 1 else 0)
    && c.received.count == (if k == InReceived then 1 else 0)
    && (forall t :: t in c.rAt ==>
          && (c.rAt[t] == RGranted <==> k == Held(t))
          && (c.rAt[t] == RFetched <==> k == Spent(t))
          && (c.rAt[t] == RBlocked <==> t in c.sent.waiting))
    && (forall t :: t in c.sent.waiting ==> t in c.rAt)
    && (forall i, j :: 0 <= i < j < |c.sent.waiting| ==> c.sent.waiting[i] != c.sent.waiting[j])
    && (k.Held? || k.Spent? ==> k.t in c.rAt)
    && (c.sent.waiting != [] ==> k != InSent)
    && c.received.waiting == (if c.sAt == SBlocked then [c.sender] else [])
    && (k == Nowhere <==> c.sAt == SIdle || c.sAt == SStored)
    && (c.sAt == SBlocked ==> k != InReceived)
    && (if c.sAt == SStored || k == InSent || k.Held?
        then c.stored == c.fetched + [c.data]
        else c.stored == c.fetched)
  }

  /** The token moves with every step. */
  ghost function OneMove(c: OneChan, k: Token, e: OneStep): Token {
    match e
    case Store(_) => k
    case SignalSent => if c.sent.waiting == [] then InSent else Held(c.sent.waiting[0])
    case WaitReceived => if c.received.count == 0 then k else Nowhere
    case WaitSent(t) => if c.sent.count == 0 then k else Held(t)
    case Fetch(t) => Spent(t)
    case SignalReceived(_) => if c.received.waiting == [] then InReceived else Nowhere
  }

  lemma {:induction false} OneKeepsSender(c: OneChan, k: Token, e: OneStep)
    requires OneInv(c, k) && OneEnabled(c, e) && (e.Store? || e.SignalSent? || e.WaitReceived?)
    ensures OneInv(OneNext(c, e), OneMove(c, k, e))
  {
    if e.SignalSent? && c.sent.waiting != [] {
      assert c.sent.waiting[0] in c.sent.waiting;
      Popped(c.sent.waiting);
    }
  }

  lemma {:induction false} Popped(w: seq<Task>)
    requires w != [] && forall i, j :: 0 <= i < j < |w| ==> w[i] != w[j]
    ensures forall t :: t in w[1..] <==> t in w && t != w[0]
  {
    assert w == [w[0]] + w[1..];
  }

  lemma {:induction false} OneKeepsReceiver(c: OneChan, k: Token, e: OneStep)
    requires OneInv(c, k) && OneEnabled(c, e) && (e.WaitSent? || e.Fetch? || e.SignalReceived?)
    ensures OneInv(OneNext(c, e), OneMove(c, k, e))
  {
    if e.Fetch? { assert k == Held(e.t); }
    if e.SignalReceived? { assert k == Spent(e.t); }
  }

  ghost predicate OneRun(cs: seq<OneChan>, es: seq<OneStep>) {
    && |cs| == |es| + 1 && OneStart(cs[0])
    && forall i :: 0 <= i < |es| ==> OneEnabled(cs[i], es[i]) && cs[i + 1] == OneNext(cs[i], es[i])
  }

  lemma {:induction false} OneRunInv(cs: seq<OneChan>, es: seq<OneStep>) returns (k: Token)
    requires OneRun(cs, es)
    ensures OneInv(cs[|es|], k) && cs[|es|].rAt.Keys == cs[0].rAt.Keys
    decreases |es|
  {
    if es == [] {
      k := Nowhere;
    } else {
      var n := |es| - 1;
      k := OneRunInv(cs[..n + 1], es[..n]);
      assert cs[..n + 1][n] == cs[n];
      OneKeeps(cs[n], k, es[n]);
      k := OneMove(cs[n], k, es[n]);
    }
  }

  lemma {:induction false} OneKeeps(c: OneChan, k: Token, e: OneStep)
    requires OneInv(c, k) && OneEnabled(c, e)
    ensures OneInv(OneNext(c, e), OneMove(c, k, e))
    ensures OneNext(c, e).rAt.Keys == c.rAt.Keys
    ensures c.received.waiting != [] ==> c.sAt == SBlocked && c.received.waiting[0] == c.sender
    ensures c.sent.waiting != [] ==> c.sent.waiting[0] in c.rAt && c.rAt[c.sent.waiting[0]] == RBlocked
  {
    if c.sent.waiting != [] { assert c.sent.waiting[0] in c.sent.waiting; }
    if e.Store? || e.SignalSent? || e.WaitReceived? { OneKeepsSender(c, k, e); }
    else { OneKeepsReceiver(c, k, e); }
  }

  predicate OneSafe(c: OneChan) {
    && (c.stored == c.fetched || c.stored == c.fetched + [c.data])
    && (c.sAt == SIdle ==> c.stored == c.fetched)
  }

  /** The values `send` was called with, in order. */
  function OneSent(es: seq<OneStep>): seq<int> {
    if es == [] then []
    else
      var n := |es| - 1;
      OneSent(es[..n]) + (match es[n] case Store(v) => [v] case _ => [])
  }

  /** What stood in the data field at each fetch, in order. */
  function OneGot(cs: seq<OneChan>, es: seq<OneStep>): seq<int>
    requires |cs| == |es| + 1
    decreases |es|
  {
    if es == [] then []
    else
      var n := |es| - 1;
      OneGot(cs[..n + 1], es[..n]) + (if es[n].Fetch? then [cs[n].data] else [])
  }

  lemma {:induction false} OneWrites(c: OneChan, e: OneStep)
    requires OneEnabled(c, e)
    ensures OneNext(c, e).stored == c.stored + (match e case Store(v) => [v] case _ => [])
    ensures OneNext(c, e).fetched == c.fetched + (if e.Fetch? then [c.data] else [])
  {
    hide SignalSem, WaitSem;
    assert c.stored + [] == c.stored && c.fetched + [] == c.fetched;
  }

  lemma {:induction false} OneHistory(cs: seq<OneChan>, es: seq<OneStep>)
    requires OneRun(cs, es)
    ensures cs[|es|].stored == OneSent(es) && cs[|es|].fetched == OneGot(cs, es)
    decreases |es|
  {
    hide OneNext, OneEnabled;
    if es != [] {
      var n := |es| - 1;
      OneHistory(cs[..n + 1], es[..n]);
      assert cs[..n + 1][n] == cs[n];
      OneWrites(cs[n], es[n]);
    }
  }

  /** Channel safety, one sender: in every state of every interleaving the values read are
      those given to `send`, in order, all but at most the last, which is then still in the
      data field. Nothing is lost, duplicated or overwritten before it was fetched. */
  lemma {:induction false} OneSenderSafe(cs: seq<OneChan>, es: seq<OneStep>)
    requires OneRun(cs, es)
    ensures OneSafe(cs[|es|])
    ensures var sent, got := OneSent(es), OneGot(cs, es);
            && (sent == got || sent == got + [cs[|es|].data])
            && (cs[|es|].sAt == SIdle ==> sent == got)
  {
    var k := OneRunInv(cs, es);
    OneHistory(cs, es);
  }

  /** Not all tasks of a channel with a receiver are blocked. */
  lemma {:induction false} OneAwake(c: OneChan, k: Token)
    requires OneInv(c, k) && c.rAt.Keys != {}
    ensures c.sAt != SBlocked || exists t :: t in c.rAt && c.rAt[t] != RBlocked
  {
    var t :| t in c.rAt;
    assert c.rAt[t] != RBlocked || c.sent.waiting != [];
  }

  /** Freedom from deadlock, one sender: with a receiver some task can always take a step. */
  lemma {:induction false} OneNeverStuck(cs: seq<OneChan>, es: seq<OneStep>)
    requires OneRun(cs, es) && cs[0].rAt.Keys != {}
    ensures exists e :: OneEnabled(cs[|es|], e)
  {
    var k := OneRunInv(cs, es);
    var c := cs[|es|];
    OneAwake(c, k);
    if c.sAt != SBlocked {
      assert OneEnabled(c, if c.sAt == SIdle then Store(0) else if c.sAt == SStored then SignalSent else WaitReceived);
    } else {
      var t :| t in c.rAt && c.rAt[t] != RBlocked;
      assert OneEnabled(c, if c.rAt[t] == RIdle then WaitSent(t) else if c.rAt[t] == RGranted then Fetch(t)
                           else SignalReceived(t));
    }
  }

  // ----- MANY-TO-ONE: any number of senders, one receiver -----

  /** A sender waits for the receiver first, then stores and signals. */
  datatype ManySenderAt = MIdle | MBlocked | MGranted | MStored

  /** The receiver signals that it is ready, then waits and fetches. */
  datatype ManyReceiverAt = QIdle | QSignalled | QBlocked | QGranted

  datatype ManyChan = ManyChan(
    data: int, sent: Sem<Task>, received: Sem<Task>,
    receiver: Task, qAt: ManyReceiverAt, mAt: map<Task, ManySenderAt>,
    stored: seq<int>, fetched: seq<int>)

  datatype ManyStep =
    | MWaitReceived(t: Task) | MStore(t: Task, v: int) | MSignalSent(t: Task)
    | QSignalReceived | QWaitSent | QFetch

  predicate ManyEnabled(c: ManyChan, e: ManyStep) {
    match e
    case MWaitReceived(t) => t in c.mAt && c.mAt[t] == MIdle
    case MStore(t, _) => t in c.mAt && c.mAt[t] == MGranted
    case MSignalSent(t) => t in c.mAt && c.mAt[t] == MStored
    case QSignalReceived => c.qAt == QIdle
    case QWaitSent => c.qAt == QSignalled
    case QFetch => c.qAt == QGranted
  }

  function ManyNext(c: ManyChan, e: ManyStep): ManyChan
    requires ManyEnabled(c, e)
  {
    match e
    case MWaitReceived(t) =>
      c.(received := WaitSem(c.received, t), mAt := c.mAt[t := if c.received.count == 0 then MBlocked else MGranted])
    case MStore(t, v) => c.(data := v, stored := c.stored + [v], mAt := c.mAt[t := MStored])
    case MSignalSent(t) =>
      var c1 := c.(sent := SignalSem(c.sent), mAt := c.mAt[t := MIdle]);
      if c.sent.waiting == [] then c1 else c1.(qAt := QGranted)
    case QSignalReceived =>
      var c1 := c.(received := SignalSem(c.received), qAt := QSignalled);
      if c.received.waiting == [] then c1 else c1.(mAt := c.mAt[c.received.waiting[0] := MGranted])
    case QWaitSent =>
      c.(sent := WaitSem(c.sent, c.receiver), qAt := if c.sent.count == 0 then QBlocked else QGranted)
    case QFetch => c.(fetched := c.fetched + [c.data], qAt := QIdle)
  }

  ghost predicate ManyStart(c: ManyChan) {
    && c.sent == NewSem(0) && c.received == NewSem(0)
    && c.qAt == QIdle && (forall t :: t in c.mAt ==> c.mAt[t] == MIdle)
    && c.stored == [] && c.fetched == []
  }

  /** Here the token starts with the receiver: `Held` by the sender that may store, `Spent`
      when it has stored, then back in `sent` or with the receiver. */
  datatype ManyToken = NoToken | Ready | MayStore(t: Task) | HasStored(t: Task) | Sent | Arrived

  ghost predicate ManyInv(c: ManyChan, k: ManyToken) {
    && c.received.count == (if k == Ready then 1 else 0)
    && c.sent.count == (if k == Sent then 1 else 0)
    && (forall t :: t in c.mAt ==>
          && (c.mAt[t] == MGranted <==> k == MayStore(t))
          && (c.mAt[t] == MStored <==> k == HasStored(t))
          && (c.mAt[t] == MBlocked <==> t in c.received.waiting))
    && (forall t :: t in c.received.waiting ==> t in c.mAt)
    && (forall i, j :: 0 <= i < j < |c.received.waiting| ==> c.received.waiting[i] != c.received.waiting[j])
    && (k.MayStore? || k.HasStored? ==> k.t in c.mAt)
    && (c.received.waiting != [] ==> k != Ready)
    && c.sent.waiting == (if c.qAt == QBlocked then [c.receiver] else [])
    && (k == NoToken <==> c.qAt == QIdle)
    && (k == Arrived <==> c.qAt == QGranted)
    && (c.qAt == QBlocked ==> k != Sent)
    && (if k.HasStored? || k == Sent || k == Arrived
        then c.stored == c.fetched + [c.data]
        else c.stored == c.fetched)
  }

  ghost function ManyMove(c: ManyChan, k: ManyToken, e: ManyStep): ManyToken {
    match e
    case MWaitReceived(t) => if c.received.count == 0 then k else MayStore(t)
    case MStore(t, _) => HasStored(t)
    case MSignalSent(_) => if c.sent.waiting == [] then Sent else Arrived
    case QSignalReceived => if c.received.waiting == [] then Ready else MayStore(c.received.waiting[0])
    case QWaitSent => if c.sent.count == 0 then k else Arrived
    case QFetch => NoToken
  }

  lemma {:induction false} ManyKeepsReceiver(c: ManyChan, k: ManyToken, e: ManyStep)
    requires ManyInv(c, k) && ManyEnabled(c, e) && (e.QSignalReceived? || e.QWaitSent? || e.QFetch?)
    ensures ManyInv(ManyNext(c, e), ManyMove(c, k, e))
  {
    if e.QSignalReceived? && c.received.waiting != [] {
      assert c.received.waiting[0] in c.received.waiting;
      Popped(c.received.waiting);
    }
  }

  lemma {:induction false} ManyKeepsSender(c: ManyChan, k: ManyToken, e: ManyStep)
    requires ManyInv(c, k) && ManyEnabled(c, e) && (e.MWaitReceived? || e.MStore? || e.MSignalSent?)
    ensures ManyInv(ManyNext(c, e), ManyMove(c, k, e))
  {
    if e.MStore? { assert k == MayStore(e.t); }
    if e.MSignalSent? { assert k == HasStored(e.t); }
  }

  ghost predicate ManyRun(cs: seq<ManyChan>, es: seq<ManyStep>) {
    && |cs| == |es| + 1 && ManyStart(cs[0])
    && forall i :: 0 <= i < |es| ==> ManyEnabled(cs[i], es[i]) && cs[i + 1] == ManyNext(cs[i], es[i])
  }

  lemma {:induction false} ManyKeeps(c: ManyChan, k: ManyToken, e: ManyStep)
    requires ManyInv(c, k) && ManyEnabled(c, e)
    ensures ManyInv(ManyNext(c, e), ManyMove(c, k, e))
    ensures ManyNext(c, e).mAt.Keys == c.mAt.Keys
    ensures c.sent.waiting != [] ==> c.qAt == QBlocked && c.sent.waiting[0] == c.receiver
    ensures c.received.waiting != [] ==>
              c.received.waiting[0] in c.mAt && c.mAt[c.received.waiting[0]] == MBlocked
  {
    if c.received.waiting != [] { assert c.received.waiting[0] in c.received.waiting; }
    if e.MWaitReceived? || e.MStore? || e.MSignalSent? { ManyKeepsSender(c, k, e); }
    else { ManyKeepsReceiver(c, k, e); }
  }

  lemma {:induction false} ManyRunInv(cs: seq<ManyChan>, es: seq<ManyStep>) returns (k: ManyToken)
    requires ManyRun(cs, es)
    ensures ManyInv(cs[|es|], k) && cs[|es|].mAt.Keys == cs[0].mAt.Keys
    decreases |es|
  {
    if es == [] {
      k := NoToken;
    } else {
      var n := |es| - 1;
      k := ManyRunInv(cs[..n + 1], es[..n]);
      assert cs[..n + 1][n] == cs[n];
      ManyKeeps(cs[n], k, es[n]);
      k := ManyMove(cs[n], k, es[n]);
    }
  }

  predicate ManySafe(c: ManyChan) {
    && (c.stored == c.fetched || c.stored == c.fetched + [c.data])
    && (c.qAt == QIdle ==> c.stored == c.fetched)
  }

  /** The values the senders gave, in the order of their stores. */
  function ManySent(es: seq<ManyStep>): seq<int> {
    if es == [] then []
    else
      var n := |es| - 1;
      ManySent(es[..n]) + (match es[n] case MStore(_, v) => [v] case _ => [])
  }

  /** What stood in the data field at each fetch, in order. */
  function ManyGot(cs: seq<ManyChan>, es: seq<ManyStep>): seq<int>
    requires |cs| == |es| + 1
    decreases |es|
  {
    if es == [] then []
    else
      var n := |es| - 1;
      ManyGot(cs[..n + 1], es[..n]) + (if es[n].QFetch? then [cs[n].data] else [])
  }

  lemma {:induction false} ManyWrites(c: ManyChan, e: ManyStep)
    requires ManyEnabled(c, e)
    ensures ManyNext(c, e).stored == c.stored + (match e case MStore(_, v) => [v] case _ => [])
    ensures ManyNext(c, e).fetched == c.fetched + (if e.QFetch? then [c.data] else [])
  {
    hide SignalSem, WaitSem;
    assert c.stored + [] == c.stored && c.fetched + [] == c.fetched;
  }

  lemma {:induction false} ManyHistory(cs: seq<ManyChan>, es: seq<ManyStep>)
    requires ManyRun(cs, es)
    ensures cs[|es|].stored == ManySent(es) && cs[|es|].fetched == ManyGot(cs, es)
    decreases |es|
  {
    hide ManyNext, ManyEnabled;
    if es != [] {
      var n := |es| - 1;
      ManyHistory(cs[..n + 1], es[..n]);
      assert cs[..n + 1][n] == cs[n];
      ManyWrites(cs[n], es[n]);
    }
  }

  /** Channel safety, one receiver: the same guarantee in MANY-TO-ONE mode. */
  lemma {:induction false} OneReceiverSafe(cs: seq<ManyChan>, es: seq<ManyStep>)
    requires ManyRun(cs, es)
    ensures ManySafe(cs[|es|])
    ensures var sent, got := ManySent(es), ManyGot(cs, es);
            && (sent == got || sent == got + [cs[|es|].data])
            && (cs[|es|].qAt == QIdle ==> sent == got)
  {
    var k := ManyRunInv(cs, es);
    ManyHistory(cs, es);
  }

  lemma {:induction false} ManyAwake(c: ManyChan, k: ManyToken)
    requires ManyInv(c, k) && c.mAt.Keys != {}
    ensures c.qAt != QBlocked || exists t :: t in c.mAt && c.mAt[t] != MBlocked
  {
    var t :| t in c.mAt;
    assert c.mAt[t] != MBlocked || c.received.waiting != [];
  }

  /** Freedom from deadlock, one receiver: with a sender some task can always take a step. */
  lemma {:induction false} ManyNeverStuck(cs: seq<ManyChan>, es: seq<ManyStep>)
    requires ManyRun(cs, es) && cs[0].mAt.Keys != {}
    ensures exists e :: ManyEnabled(cs[|es|], e)
  {
    var k := ManyRunInv(cs, es);
    var c := cs[|es|];
    ManyAwake(c, k);
    if c.qAt != QBlocked {
      assert ManyEnabled(c, if c.qAt == QIdle then QSignalReceived else if c.qAt == QSignalled then QWaitSent
                            else QFetch);
    } else {
      var t :| t in c.mAt && c.mAt[t] != MBlocked;
      assert ManyEnabled(c, if c.mAt[t] == MIdle then MWaitReceived(t) else if c.mAt[t] == MGranted then MStore(t, 0)
                            else MSignalSent(t));
    }
  }

  // ----- rendezvous: one client, one server -----

  /** What the client and the server are doing between channel steps. */
  datatype ClientAt = CReady | CSending | CReceiving
  datatype ServerAt = VReady | VReceiving | VServing | VSending

  /** A rendezvous and the histories of its two tasks: calls made, answers got, requests
      accepted, results computed. */
  datatype Rendezvous = Rendezvous(
    arg: OneChan, res: OneChan, cAt: ClientAt, vAt: ServerAt,
    calls: seq<int>, answers: seq<int>, accepted: seq<int>, results: seq<int>)

  const CLIENT: Task := 0
  const SERVER: Task := 1

  datatype MeetStep =
    | Call(v: int)                       // client: enter `send` on the argument channel
    | OnArg(e: OneStep) | OnRes(e: OneStep)
    | Accept | Serve                     // server: enter `receive`; compute and enter `send`

  /** The service may depend on everything accepted so far. */
  type Service = seq<int> -> int

  predicate MeetEnabled(m: Rendezvous, e: MeetStep) {
    match e
    case Call(v) => m.cAt == CReady && OneEnabled(m.arg, Store(v))
    case Accept => m.vAt == VReady
    case Serve => m.vAt == VServing && OneEnabled(m.res, Store(0))
    case OnArg(f) =>
      OneEnabled(m.arg, f) &&
      (match f
       case Store(_) => false
       case SignalSent => m.cAt == CSending
       case WaitReceived => m.cAt == CSending
       case WaitSent(t) => t == SERVER && m.vAt == VReceiving
       case Fetch(t) => t == SERVER && m.vAt == VReceiving
       case SignalReceived(t) => t == SERVER && m.vAt == VReceiving)
    case OnRes(f) =>
      OneEnabled(m.res, f) &&
      (match f
       case Store(_) => false
       case SignalSent => m.vAt == VSending
       case WaitReceived => m.vAt == VSending
       case WaitSent(t) => t == CLIENT && m.cAt == CReceiving
       case Fetch(t) => t == CLIENT && m.cAt == CReceiving
       case SignalReceived(t) => t == CLIENT && m.cAt == CReceiving)
  }

  /** A task whose `send` or `receive` is over goes on with its program. */
  function MeetNext(m: Rendezvous, e: MeetStep, service: Service): Rendezvous
    requires MeetEnabled(m, e)
  {
    match e
    case Call(v) => m.(arg := OneNext(m.arg, Store(v)), cAt := CSending, calls := m.calls + [v])
    case Accept => m.(vAt := VReceiving)
    case Serve =>
      var y := service(m.accepted);
      m.(res := OneNext(m.res, Store(y)), vAt := VSending, results := m.results + [y])
    case OnArg(f) =>
      var arg := OneNext(m.arg, f);
      m.(arg := arg,
         accepted := if f.Fetch? then m.accepted + [m.arg.data] else m.accepted,
         cAt := if m.cAt == CSending && arg.sAt == SIdle then CReceiving else m.cAt,
         vAt := if f.SignalReceived? then VServing else m.vAt)
    case OnRes(f) =>
      var res := OneNext(m.res, f);
      m.(res := res,
         answers := if f.Fetch? then m.answers + [m.res.data] else m.answers,
         vAt := if m.vAt == VSending && res.sAt == SIdle then VReady else m.vAt,
         cAt := if f.SignalReceived? then CReady else m.cAt)
  }

  ghost predicate MeetStart(m: Rendezvous) {
    && OneStart(m.arg) && OneStart(m.res)
    && m.arg.rAt.Keys == {SERVER} && m.res.rAt.Keys == {CLIENT}
    && m.cAt == CReady && m.vAt == VReady
    && m.calls == m.answers == m.accepted == m.results == []
  }

  /** The i-th result is what the service answers to the first i + 1 calls. */
  ghost predicate Served(results: seq<int>, accepted: seq<int>, service: Service) {
    && |results| <= |accepted|
    && forall i :: 0 <= i < |results| ==> results[i] == service(accepted[..i + 1])
  }

  /** Both channels keep their invariant; they carry exactly the histories of the two tasks;
      and client and server are in step. */
  ghost predicate MeetInv(m: Rendezvous, k: Token, l: Token, service: Service) {
    && OneInv(m.arg, k) && OneInv(m.res, l)
    && m.arg.rAt.Keys == {SERVER} && m.res.rAt.Keys == {CLIENT}
    && m.arg.stored == m.calls && m.arg.fetched == m.accepted
    && m.res.stored == m.results && m.res.fetched == m.answers
    && (m.cAt == CSending <==> m.arg.sAt != SIdle)
    && (m.vAt == VSending <==> m.res.sAt != SIdle)
    && (m.vAt != VReceiving ==> m.arg.rAt[SERVER] == RIdle)
    && (m.cAt != CReceiving ==> m.res.rAt[CLIENT] == RIdle)
    && Served(m.results, m.accepted, service)
    && |m.accepted| == |m.results| +
         (if m.vAt == VServing || (m.vAt == VReceiving && m.arg.rAt[SERVER] == RFetched) then 1 else 0)
    && |m.calls| == |m.answers| +
         (if m.cAt == CSending || (m.cAt == CReceiving && m.res.rAt[CLIENT] != RFetched) then 1 else 0)
  }

  ghost predicate MeetRun(ms: seq<Rendezvous>, es: seq<MeetStep>, service: Service) {
    && |ms| == |es| + 1 && MeetStart(ms[0])
    && forall i :: 0 <= i < |es| ==> MeetEnabled(ms[i], es[i]) && ms[i + 1] == MeetNext(ms[i], es[i], service)
  }

  ghost function MeetMoveArg(m: Rendezvous, k: Token, e: MeetStep): Token {
    match e
    case Call(v) => OneMove(m.arg, k, Store(v))
    case OnArg(f) => OneMove(m.arg, k, f)
    case _ => k
  }

  ghost function MeetMoveRes(m: Rendezvous, l: Token, e: MeetStep, service: Service): Token {
    match e
    case Serve => OneMove(m.res, l, Store(service(m.accepted)))
    case OnRes(f) => OneMove(m.res, l, f)
    case _ => l
  }

  lemma {:induction false} MeetKeeps(m: Rendezvous, k: Token, l: Token, e: MeetStep, service: Service)
    requires MeetInv(m, k, l, service) && MeetEnabled(m, e)
    ensures MeetInv(MeetNext(m, e, service), MeetMoveArg(m, k, e), MeetMoveRes(m, l, e, service), service)
  {
    match e
    case Call(v) => OneKeeps(m.arg, k, Store(v)); hide OneInv, OneMove, Served;
    case Accept => hide OneInv, Served;
    case Serve =>
      OneKeeps(m.res, l, Store(service(m.accepted)));
      hide OneInv, OneMove;
      assert m.accepted[..|m.results| + 1] == m.accepted;
    case OnArg(f) => ArgKeeps(m, k, l, f, service);
    case OnRes(f) => ResKeeps(m, k, l, f, service);
  }

  lemma {:induction false} ArgKeeps(m: Rendezvous, k: Token, l: Token, f: OneStep, service: Service)
    requires MeetInv(m, k, l, service) && MeetEnabled(m, OnArg(f))
    ensures MeetInv(MeetNext(m, OnArg(f), service), OneMove(m.arg, k, f), l, service)
  {
    hide OneInv, OneMove, Served, SignalSem, WaitSem;
    OneKeeps(m.arg, k, f);
    MoreAccepted(m.results, m.accepted, m.arg.data, service);
    assert m.arg.rAt.Keys == {SERVER} && OneNext(m.arg, f).rAt.Keys == {SERVER};
    if f.Fetch? || f.SignalReceived? || f.WaitSent? { assert m.vAt == VReceiving; } else { assert m.cAt == CSending; }
  }

  /** Accepting one more request does not change what earlier ones were answered. */
  lemma {:induction false} MoreAccepted(results: seq<int>, accepted: seq<int>, v: int, service: Service)
    requires Served(results, accepted, service)
    ensures Served(results, accepted + [v], service)
  {
    forall i | 0 <= i < |results| ensures results[i] == service((accepted + [v])[..i + 1]) {
      assert (accepted + [v])[..i + 1] == accepted[..i + 1];
    }
  }

  lemma {:induction false} ResKeeps(m: Rendezvous, k: Token, l: Token, f: OneStep, service: Service)
    requires MeetInv(m, k, l, service) && MeetEnabled(m, OnRes(f))
    ensures MeetInv(MeetNext(m, OnRes(f), service), k, OneMove(m.res, l, f), service)
  {
    hide OneInv, OneMove, Served;
    OneKeeps(m.res, l, f);
    if f.Fetch? || f.SignalReceived? || f.WaitSent? { hide OneStart; } else { assert m.vAt == VSending; }
  }

  lemma {:induction false} MeetRunInv(ms: seq<Rendezvous>, es: seq<MeetStep>, service: Service)
    returns (k: Token, l: Token)
    requires MeetRun(ms, es, service)
    ensures MeetInv(ms[|es|], k, l, service)
    decreases |es|
  {
    if es == [] {
      k, l := Nowhere, Nowhere;
    } else {
      var n := |es| - 1;
      k, l := MeetRunInv(ms[..n + 1], es[..n], service);
      assert ms[..n + 1][n] == ms[n];
      MeetKeeps(ms[n], k, l, es[n], service);
      k, l := MeetMoveArg(ms[n], k, es[n]), MeetMoveRes(ms[n], l, es[n], service);
    }
  }

  predicate ClientBlocked(m: Rendezvous) {
    m.arg.sAt == SBlocked || (CLIENT in m.res.rAt && m.res.rAt[CLIENT] == RBlocked)
  }

  predicate ServerBlocked(m: Rendezvous) {
    m.res.sAt == SBlocked || (SERVER in m.arg.rAt && m.arg.rAt[SERVER] == RBlocked)
  }

  /** Client and server never wait for each other at the same time. */
  lemma {:induction false} MeetAwake(m: Rendezvous, k: Token, l: Token, service: Service)
    requires MeetInv(m, k, l, service)
    ensures !(ClientBlocked(m) && ServerBlocked(m))
  {
    assert SERVER in m.arg.rAt && CLIENT in m.res.rAt;
  }

  /** Freedom from deadlock of the rendezvous. */
  lemma {:induction false} MeetNeverStuck(ms: seq<Rendezvous>, es: seq<MeetStep>, service: Service)
    requires MeetRun(ms, es, service)
    ensures exists e :: MeetEnabled(ms[|es|], e)
  {
    var k, l := MeetRunInv(ms, es, service);
    var m := ms[|es|];
    MeetAwake(m, k, l, service);
    if !ClientBlocked(m) { ClientCan(m, k, l, service); } else { ServerCan(m, k, l, service); }
  }

  lemma {:induction false} ClientCan(m: Rendezvous, k: Token, l: Token, service: Service)
    requires MeetInv(m, k, l, service) && !ClientBlocked(m)
    ensures exists e :: MeetEnabled(m, e)
  {
    assert CLIENT in m.res.rAt;
    assert MeetEnabled(m, match m.cAt
                          case CReady => Call(0)
                          case CSending => OnArg(if m.arg.sAt == SStored then SignalSent else WaitReceived)
                          case CReceiving =>
                            OnRes(if m.res.rAt[CLIENT] == RIdle then WaitSent(CLIENT)
                                  else if m.res.rAt[CLIENT] == RGranted then Fetch(CLIENT)
                                  else SignalReceived(CLIENT)));
  }

  lemma {:induction false} ServerCan(m: Rendezvous, k: Token, l: Token, service: Service)
    requires MeetInv(m, k, l, service) && !ServerBlocked(m)
    ensures exists e :: MeetEnabled(m, e)
  {
    assert SERVER in m.arg.rAt;
    assert MeetEnabled(m, match m.vAt
                          case VReady => Accept
                          case VServing => Serve
                          case VSending => OnRes(if m.res.sAt == SStored then SignalSent else WaitReceived)
                          case VReceiving =>
                            OnArg(if m.arg.rAt[SERVER] == RIdle then WaitSent(SERVER)
                                  else if m.arg.rAt[SERVER] == RGranted then Fetch(SERVER)
                                  else SignalReceived(SERVER)));
  }

  ghost predicate Answered(m: Rendezvous, service: Service) {
    && |m.answers| <= |m.calls| <= |m.answers| + 1
    && (forall i :: 0 <= i < |m.answers| ==> m.answers[i] == service(m.calls[..i + 1]))
    && (m.cAt == CReady ==> |m.answers| == |m.calls|)
  }

  lemma {:induction false} MeetAnswered(m: Rendezvous, k: Token, l: Token, service: Service)
    requires MeetInv(m, k, l, service)
    ensures Answered(m, service)
  {
    forall i | 0 <= i < |m.answers|
      ensures m.answers[i] == service(m.calls[..i + 1])
    {
      assert m.answers[i] == m.results[i];
      assert m.calls[..i + 1] == m.accepted[..i + 1];
    }
  }

  /** The arguments the client called with, in order. */
  function MeetCalled(es: seq<MeetStep>): seq<int> {
    if es == [] then []
    else
      var n := |es| - 1;
      MeetCalled(es[..n]) + (match es[n] case Call(v) => [v] case _ => [])
  }

  /** What the client read from the result channel, in order. */
  function MeetGot(ms: seq<Rendezvous>, es: seq<MeetStep>): seq<int>
    requires |ms| == |es| + 1
    decreases |es|
  {
    if es == [] then []
    else
      var n := |es| - 1;
      MeetGot(ms[..n + 1], es[..n]) + (if es[n].OnRes? && es[n].e.Fetch? then [ms[n].res.data] else [])
  }

  lemma {:induction false} MeetWrites(m: Rendezvous, e: MeetStep, service: Service)
    requires MeetEnabled(m, e)
    ensures MeetNext(m, e, service).calls == m.calls + (match e case Call(v) => [v] case _ => [])
    ensures MeetNext(m, e, service).answers
         == m.answers + (if e.OnRes? && e.e.Fetch? then [m.res.data] else [])
  {
    hide OneNext, OneEnabled;
    assert m.calls + [] == m.calls && m.answers + [] == m.answers;
  }

  lemma {:induction false} MeetHistory(ms: seq<Rendezvous>, es: seq<MeetStep>, service: Service)
    requires MeetRun(ms, es, service)
    ensures ms[|es|].calls == MeetCalled(es) && ms[|es|].answers == MeetGot(ms, es)
    decreases |es|
  {
    hide MeetNext, MeetEnabled, OneStart;
    if es != [] {
      var n := |es| - 1;
      MeetHistory(ms[..n + 1], es[..n], service);
      assert ms[..n + 1][n] == ms[n];
      MeetWrites(ms[n], es[n], service);
    }
  }

  /** Rendezvous: over every interleaving what the client reads after its i-th call is the
      service's answer to it, and whenever it is back from a call it has the answer. */
  lemma {:induction false} CallsGetTheirAnswers(ms: seq<Rendezvous>, es: seq<MeetStep>, service: Service)
    requires MeetRun(ms, es, service)
    ensures Answered(ms[|es|], service)
    ensures var called, got := MeetCalled(es), MeetGot(ms, es);
            && |got| <= |called| <= |got| + 1
            && (forall i :: 0 <= i < |got| ==> got[i] == service(called[..i + 1]))
            && (ms[|es|].cAt == CReady ==> |got| == |called|)
  {
    var k, l := MeetRunInv(ms, es, service);
    MeetAnswered(ms[|es|], k, l, service);
    MeetHistory(ms, es, service);
  }
}
