/** Circular doubly linked rings: `enqueue`, `dequeue` and `?empty-queue` relink `succ` and
    `pred` in place and refine insertion and deletion on cyclic sequences. */
module Queues {

  /** The machine registers a task block has fields for. */
  datatype Registers = Registers(sp: int, s0: int, ip: int, rp: int, r0: int, fp: int, ep: int)

  /** A queue node. Task blocks and condition headers both start with one; `status` and
      `saved` are the fields of a task block. */
  class Node {
    var succ: Node
    var pred: Node
    var status: int
    var saved: Registers

    /** A node by itself, as `make_task` and a queue's initiation leave it. */
    constructor (saved: Registers)
      ensures Ring([this]) && status == READY && this.saved == saved
    {
      succ, pred, status, this.saved := this, this, READY, saved;
    }
  }

  // Task status codes of src/kernel.h
  const TERMINATED: int := 0
  const READY: int := 1
  const RUNNING: int := 2
  const WAITING: int := 4

  function Nodes(s: seq<Node>): set<Node> {
    set n | n in s
  }

  function Next(i: nat, n: nat): nat
    requires i < n
  {
    if i + 1 == n then 0 else i + 1
  }

  /** The nodes of `s`, all different, are linked in a ring in this order: `succ` and `pred`
      are inverse to each other. */
  ghost predicate Ring(s: seq<Node>)
    reads Nodes(s)`succ, Nodes(s)`pred
  {
    && s != []
    && (forall i, j :: 0 <= i < j < |s| ==> s[i] != s[j])
    && (forall i :: 0 <= i < |s| ==> s[i].succ == s[Next(i, |s|)])
    && (forall i :: 0 <= i < |s| ==> s[Next(i, |s|)].pred == s[i])
  }

  /** A ring has no first node. */
  lemma {:induction false} Rotate(s: seq<Node>, k: nat)
    requires Ring(s) && k < |s|
    ensures Ring(s[k..] + s[..k])
  {
    var r := s[k..] + s[..k];
    forall i | 0 <= i < |r|
      ensures r[i].succ == r[Next(i, |r|)] && r[Next(i, |r|)].pred == r[i]
    {
      var at := if i < |s| - k then k + i else i - (|s| - k);
      assert r[i] == s[at] && r[Next(i, |r|)] == s[Next(at, |s|)];
    }
  }

  /** `enqueue`: put `t` in front of `q`, that is at the end of the ring that starts at `q`. */
  method Enqueue(t: Node, q: Node, ghost s: seq<Node>)
    requires Ring(s) && s[0] == q && t !in s
    modifies t`succ, t`pred, q`pred, q.pred`succ
    ensures Ring(s + [t])
  {
    ghost var last := s[|s| - 1];
    LastPred(s);
    t.pred := q.pred;
    t.succ := q;
    q.pred.succ := t;
    q.pred := t;
    ghost var r := s + [t];
    forall i | 0 <= i < |r|
      ensures r[i].succ == r[Next(i, |r|)] && r[Next(i, |r|)].pred == r[i]
    {
      if i < |s| - 1 {
        assert s[i].succ == old(s[i].succ) && s[i + 1].pred == old(s[i + 1].pred);
        assert Next(i, |s|) == i + 1;
      }
    }
  }

  /** `succ enqueue`: put `t` right after the first node of a ring. */
  method EnqueueAfter(t: Node, q: Node, ghost s: seq<Node>)
    requires Ring(s) && s[0] == q && t !in s
    modifies t`succ, t`pred, q`succ, q.succ`pred
    ensures Ring([q, t] + s[1..])
  {
    FirstSucc(s);
    Turn(s);
    ghost var turned := s[1..] + [s[0]];
    assert t !in turned;
    LastPred(turned);
    Enqueue(t, q.succ, turned);
    ghost var r := turned + [t];
    Rotate(r, |s| - 1);
    assert r[|s| - 1..] + r[..|s| - 1] == [q, t] + s[1..];
  }

  lemma {:induction false} Turn(ring: seq<Node>)
    requires Ring(ring)
    ensures Ring(ring[1..] + [ring[0]])
  {
    if |ring| == 1 {
      assert ring[1..] + [ring[0]] == ring;
    } else {
      Rotate(ring, 1);
      assert ring[1..] + ring[..1] == ring[1..] + [ring[0]];
    }
  }

  lemma {:induction false} TurnBack(rest: seq<Node>, h: Node)
    requires Ring(rest + [h])
    ensures Ring([h] + rest)
  {
    var r := rest + [h];
    Rotate(r, |rest|);
    assert r[|rest|..] + r[..|rest|] == [h] + rest;
  }

  /** `dequeue`: take `t` out of its ring and leave it in a ring of its own. */
  method Dequeue(t: Node, ghost s: seq<Node>)
    requires Ring(s) && s[0] == t
    modifies t`succ, t`pred, t.succ`pred, t.pred`succ
    ensures Ring([t])
    ensures |s| > 1 ==> Ring(s[1..])
  {
    ghost var last := s[|s| - 1];
    LastPred(s);
    FirstSucc(s);
    t.succ.pred := t.pred;
    t.pred.succ := t.succ;
    t.pred := t;
    t.succ := t;
    if |s| > 1 {
      ghost var r := s[1..];
      forall i | 0 <= i < |r|
        ensures r[i].succ == r[Next(i, |r|)] && r[Next(i, |r|)].pred == r[i]
      {
        assert r[i] == s[i + 1];
        if i < |r| - 1 {
          assert Next(i + 1, |s|) == i + 2;
          assert s[i + 1].succ == old(s[i + 1].succ) && s[i + 2].pred == old(s[i + 2].pred);
        }
      }
    }
  }

  /** `?empty-queue` */
  method EmptyQueue(q: Node, ghost s: seq<Node>) returns (empty: bool)
    requires Ring(s) && s[0] == q
    ensures empty <==> s == [q]
  {
    empty := q.succ == q;
    FirstSucc(s);
    if |s| > 1 { assert s[0] != s[1]; }
  }

  /** What `dequeue` undoes: taking a node out of a ring it was just put into restores the
      ring, node for node. (Nodes outside it are not in the frame.) */
  method EnqueueDequeue(t: Node, q: Node, ghost s: seq<Node>)
    requires Ring(s) && s[0] == q && t !in s
    modifies t`succ, t`pred, q`pred, q.pred`succ
    ensures Ring(s) && Ring([t])
  {
    LastPred(s);
    Enqueue(t, q, s);
    ghost var r := s + [t];
    Rotate(r, |s|);
    assert r[|s|..] + r[..|s|] == [t] + s;
    LastPred([t] + s);
    FirstSucc([t] + s);
    Dequeue(t, [t] + s);
    assert ([t] + s)[1..] == s;
  }

  lemma {:induction false} LastPred(s: seq<Node>)
    requires Ring(s)
    ensures s[0].pred == s[|s| - 1]
  {
    assert s[Next(|s| - 1, |s|)] == s[0];
  }

  lemma {:induction false} FirstSucc(s: seq<Node>)
    requires Ring(s)
    ensures s[0].succ == if |s| > 1 then s[1] else s[0]
  {
    assert s[0].succ == s[Next(0, |s|)];
  }
}
